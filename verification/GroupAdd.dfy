/**
  Creating a group on one of several FreeIPA masters that replicate to each other in their own
  time (`get_group_create_if_not_exists` and `force_get_group_everywhere` in freeipa.rs).

  The model is a step machine: any number of tasks, each at its own point of the procedure,
  interleave with replication between masters and with the cache being cleared. A write may
  go to any master, so nothing here depends on the write target staying put.
 */
module GroupAdd {
  import opened Identifiers
  import opened Names
  import opened Wrappers

  type Server = string
  type Task = nat

  // ---- The machine ----

  /**
    One round of asking every master in turn. `held` is bookkeeping: the masters that had the
    group when the round began. `failed` are those that gave no usable answer.
   */
  datatype Round = Round(next: nat, held: set<Server>, failed: set<Server>)

  /** Where a task is. After the write, `pending` is the master it may still take effect on. */
  datatype Stage =
    | Idle
    | Locked(id: Identifier)
    | Checking(id: Identifier, check: Round)
    | Writing(id: Identifier, check: Round)
    | Sent(id: Identifier, check: Round, pending: Option<Server>)
    | ReadingBack(id: Identifier, check: Round, pending: Option<Server>, back: Round)

  /**
    A group as it stands on a master. Where two masters took an add of one name each, both
    entries reach every master in time, so a name can have several.
   */
  datatype Entry = Entry(name: string, description: string)

  /** A group entry that a master accepted as new, and the round that decided to add it. */
  datatype Added = Added(id: Identifier, master: Server, check: Round)

  /** How one call of the procedure ended. */
  datatype Ended = Found(id: Identifier) | NotThere(id: Identifier, back: Round) | Aborted(id: Identifier)

  datatype State = State(
    dirs: map<Server, set<Entry>>,      // the groups each master has
    cached: set<Identifier>,            // the groups the agent remembers
    locks: map<Identifier, Task>,       // who holds the lock of each group
    tasks: map<Task, Stage>,
    added: seq<Added>,
    ended: seq<Ended>
  )

  datatype Step =
    | Acquire(task: Task, id: Identifier)         // missed in the cache, and got the lock
    | HitCache(task: Task)                        // it is cached by now
    | Begin(task: Task)                           // start asking every master
    | Ask(task: Task, answered: bool)             // ask the next master, or conclude
    | Send(task: Task, target: Option<Server>)    // the add reaches one master, or none
    | Land(task: Task)                            // ... and takes effect there
    | BeginReadBack(task: Task)
    | AskBack(task: Task, answered: bool)
    | Abort(task: Task)                           // the job's deadline passes
    | Replicate(from: Server, to: Server, entry: Entry)
    | Remember(ids: set<Identifier>)              // other code puts groups into the cache
    | Forget(ids: set<Identifier>)                // the cache is cleared or pruned

  /**
    Whether the agent takes an entry that it asked for by name for the group `id`. Internal
    groups it knows by their names, others by their legacy name or by a description that an
    identifier can be read from.
   */
  predicate Recognised(e: Entry, id: Identifier) {
    || (e.name == GroupName(id) && (id.portal in INTERNAL_PORTALS || DescribedIdentifier(e.description).Some?))
    || LegacyName(id) == Some(e.name)
  }

  /**
    So an internal group is recognised by its plain name alone, and a project's by either of its
    two names, the first of them only with an identifier in the description.
   */
  lemma RecognisedIff(e: Entry, id: Identifier)
    ensures id.portal in {"openportal", "system", "instance"} ==> (Recognised(e, id) <==> e.name == id.project)
    ensures id.portal !in {"openportal", "system", "instance"} ==>
              (Recognised(e, id) <==>
                || (e.name == id.portal + "." + id.project && DescribedIdentifier(e.description).Some?)
                || e.name == "group." + id.project)
  {}

  /** Whether a master with these entries is seen to have the group `id`. */
  predicate Holds(dir: set<Entry>, id: Identifier) {
    exists e | e in dir :: Recognised(e, id)
  }

  /** Whether a master with these entries calls an add of the group a duplicate. */
  predicate HasName(dir: set<Entry>, id: Identifier) {
    exists e | e in dir :: e.name == GroupName(id)
  }

  /** The entry that is added, with the identifier in its description. */
  function Fresh(id: Identifier): (e: Entry)
    ensures e.name == GroupName(id)
  {
    Entry(GroupName(id), Describe(id, WORDS))
  }

  /** What the agent adds it will recognise. */
  lemma FreshIsRecognised(id: Identifier)
    requires Valid(id)
    ensures Recognised(Fresh(id), id)
  {
    hide Describe;
    DescribeRoundTrip(id, WORDS);
  }

  function HoldersOf(s: State, id: Identifier): set<Server> {
    set m | m in s.dirs && Holds(s.dirs[m], id)
  }

  function StageOf(s: State, t: Task): Stage {
    if t in s.tasks then s.tasks[t] else Idle
  }

  function Landed(g: Stage): Stage {
    match g
    case Sent(id, check, _) => Sent(id, check, None)
    case ReadingBack(id, check, _, back) => ReadingBack(id, check, None, back)
    case _ => g
  }

  predicate HasPending(g: Stage) {
    (g.Sent? || g.ReadingBack?) && g.pending.Some?
  }

  predicate Enabled(s: State, step: Step) {
    match step
    case Acquire(t, id) => StageOf(s, t).Idle? && id !in s.locks && Valid(id)
    case HitCache(t) => StageOf(s, t).Locked? && StageOf(s, t).id in s.cached
    case Begin(t) => StageOf(s, t).Locked? && StageOf(s, t).id !in s.cached
    case Ask(t, _) => StageOf(s, t).Checking?
    case Send(t, target) => StageOf(s, t).Writing? && (target.Some? ==> target.value in s.dirs)
    case Land(t) => HasPending(StageOf(s, t)) && StageOf(s, t).pending.value in s.dirs
    case BeginReadBack(t) => StageOf(s, t).Sent?
    case AskBack(t, _) => StageOf(s, t).ReadingBack?
    case Abort(t) => !StageOf(s, t).Idle?
    case Replicate(from, to, entry) => from in s.dirs && to in s.dirs && entry in s.dirs[from]
    case Remember(_) => true
    case Forget(_) => true
  }

  function MoveTo(s: State, t: Task, g: Stage): State {
    s.(tasks := s.tasks[t := g])
  }

  /** The call is over and lets go of its lock; a write still pending is lost. */
  function Finish(s: State, t: Task, e: Ended): State {
    s.(tasks := s.tasks[t := Idle], locks := s.locks - {e.id}, ended := s.ended + [e])
  }

  datatype Reply = Yes | No | Unreachable

  function AskMaster(s: State, m: Server, id: Identifier, answered: bool): Reply
    requires m in s.dirs
  {
    if !answered then Unreachable else if Holds(s.dirs[m], id) then Yes else No
  }

  function Advance(r: Round, m: Server, unreachable: bool): Round {
    r.(next := r.next + 1, failed := if unreachable then r.failed + {m} else r.failed)
  }

  /** A master takes the add unless it already has the name, which it calls a duplicate. */
  function AddOn(s: State, m: Server, id: Identifier, check: Round): State
    requires m in s.dirs
  {
    if HasName(s.dirs[m], id) then s
    else s.(dirs := s.dirs[m := s.dirs[m] + {Fresh(id)}], added := s.added + [Added(id, m, check)])
  }

  ghost predicate Covers(order: seq<Server>, s: State) {
    forall m :: m in order <==> m in s.dirs
  }

  function Apply(s: State, order: seq<Server>, step: Step): State
    requires Enabled(s, step) && forall m | m in order :: m in s.dirs
  {
    match step
    case Acquire(t, id) => MoveTo(s, t, Locked(id)).(locks := s.locks[id := t])
    case HitCache(t) => Finish(s, t, Found(s.tasks[t].id))
    case Begin(t) =>
      MoveTo(s, t, Checking(s.tasks[t].id, Round(0, HoldersOf(s, s.tasks[t].id), {})))
    case Ask(t, answered) =>
      var g := s.tasks[t];
      if g.check.next >= |order| then MoveTo(s, t, Writing(g.id, g.check))
      else
        var m := order[g.check.next];
        var reply := AskMaster(s, m, g.id, answered);
        if reply == Yes then Finish(s.(cached := s.cached + {g.id}), t, Found(g.id))
        else MoveTo(s, t, Checking(g.id, Advance(g.check, m, reply == Unreachable)))
    case Send(t, target) => MoveTo(s, t, Sent(s.tasks[t].id, s.tasks[t].check, target))
    case Land(t) =>
      var g := s.tasks[t];
      MoveTo(AddOn(s, g.pending.value, g.id, g.check), t, Landed(g))
    case BeginReadBack(t) =>
      var g := s.tasks[t];
      MoveTo(s, t, ReadingBack(g.id, g.check, g.pending, Round(0, HoldersOf(s, g.id), {})))
    case AskBack(t, answered) =>
      var g := s.tasks[t];
      if g.back.next >= |order| then Finish(s, t, NotThere(g.id, g.back))
      else
        var m := order[g.back.next];
        var reply := AskMaster(s, m, g.id, answered);
        if reply == Yes then Finish(s.(cached := s.cached + {g.id}), t, Found(g.id))
        else MoveTo(s, t, ReadingBack(g.id, g.check, g.pending, Advance(g.back, m, reply == Unreachable)))
    case Abort(t) => Finish(s, t, Aborted(s.tasks[t].id))
    case Replicate(from, to, entry) => s.(dirs := s.dirs[to := s.dirs[to] + {entry}])
    case Remember(ids) => s.(cached := s.cached + ids)
    case Forget(ids) => s.(cached := s.cached - ids)
  }

  /** The steps can be taken from `s` one after another, and lead to `s'`. */
  ghost predicate Runs(s: State, order: seq<Server>, steps: seq<Step>, s': State)
    requires Covers(order, s)
    decreases |steps|
  {
    if steps == [] then s' == s
    else
      && Enabled(s, steps[0])
      && Covers(order, Apply(s, order, steps[0]))
      && Runs(Apply(s, order, steps[0]), order, steps[1..], s')
  }

  /** Nobody is doing anything yet; the masters may hold any groups at all. */
  ghost predicate Initial(s: State) {
    s.tasks == map[] && s.locks == map[] && s.added == [] && s.ended == []
  }

  /** No two of these groups share a name in FreeIPA. */
  ghost predicate NoClash(ids: set<Identifier>) {
    forall i, j | i in ids && j in ids && GroupName(i) == GroupName(j) :: i == j
  }

  ghost predicate Uses(steps: seq<Step>, ids: set<Identifier>) {
    forall k | 0 <= k < |steps| && steps[k].Acquire? :: steps[k].id in ids
  }

  // ---- The invariant ----

  /** A round's `held` masters still have the group, and those already asked did not answer. */
  ghost predicate RoundOk(s: State, order: seq<Server>, id: Identifier, r: Round) {
    && (forall m | m in r.held :: m in s.dirs && Holds(s.dirs[m], id))
    && r.next <= |order|
    && (forall k | 0 <= k < r.next && order[k] in r.held :: order[k] in r.failed)
  }

  ghost predicate StageOk(s: State, order: seq<Server>, ids: set<Identifier>, t: Task, g: Stage) {
    && (!g.Idle? ==> g.id in ids && Valid(g.id) && g.id in s.locks && s.locks[g.id] == t)
    && (g.Checking? ==> RoundOk(s, order, g.id, g.check))
    && (g.Writing? || g.Sent? || g.ReadingBack? ==> g.check.held <= g.check.failed)
    && (g.ReadingBack? ==> RoundOk(s, order, g.id, g.back))
  }

  /** Unless its own write has taken effect, a task's round began after every add of its group. */
  ghost predicate StageSeesAdds(s: State, g: Stage) {
    g.Checking? || g.Writing? || HasPending(g) ==>
      forall k | 0 <= k < |s.added| && s.added[k].id == g.id :: s.added[k].master in g.check.held
  }

  ghost predicate AddedOk(s: State, ids: set<Identifier>) {
    && (forall k | 0 <= k < |s.added| ::
          && s.added[k].id in ids
          && s.added[k].master in s.dirs
          && Valid(s.added[k].id) && Fresh(s.added[k].id) in s.dirs[s.added[k].master]
          && s.added[k].check.held <= s.added[k].check.failed)
    && (forall i, j | 0 <= i < j < |s.added| && s.added[i].id == s.added[j].id ::
          && s.added[i].master in s.added[j].check.held
          && s.added[i].master != s.added[j].master)
  }

  ghost predicate EndedOk(s: State) {
    forall k | 0 <= k < |s.ended| && s.ended[k].NotThere? :: s.ended[k].back.held <= s.ended[k].back.failed
  }

  ghost predicate Inv(s: State, order: seq<Server>, ids: set<Identifier>) {
    && Covers(order, s)
    && (forall t | t in s.tasks :: StageOk(s, order, ids, t, s.tasks[t]) && StageSeesAdds(s, s.tasks[t]))
    && AddedOk(s, ids)
    && EndedOk(s)
  }

  /** One task moves on. */
  lemma InvMove(s: State, order: seq<Server>, ids: set<Identifier>, t: Task, g: Stage)
    requires Inv(s, order, ids)
    requires StageOk(s, order, ids, t, g) && StageSeesAdds(s, g)
    ensures Inv(MoveTo(s, t, g), order, ids)
  {
    var s' := MoveTo(s, t, g);
    forall u | u in s'.tasks ensures StageOk(s', order, ids, u, s'.tasks[u]) && StageSeesAdds(s', s'.tasks[u]) {
      assert StageOk(s, order, ids, u, s'.tasks[u]) && StageSeesAdds(s, s'.tasks[u]);
    }
  }

  /** One task ends; nobody else can have held its lock. */
  lemma InvFinish(s: State, order: seq<Server>, ids: set<Identifier>, t: Task, e: Ended)
    requires Inv(s, order, ids) && t in s.tasks && !s.tasks[t].Idle? && e.id == s.tasks[t].id
    requires e.NotThere? ==> e.back.held <= e.back.failed
    ensures Inv(Finish(s, t, e), order, ids)
  {
    var s' := Finish(s, t, e);
    forall u | u in s'.tasks ensures StageOk(s', order, ids, u, s'.tasks[u]) && StageSeesAdds(s', s'.tasks[u]) {
      if u != t {
        assert StageOk(s, order, ids, u, s.tasks[u]) && StageSeesAdds(s, s.tasks[u]);
        assert StageOk(s, order, ids, t, s.tasks[t]);
      }
    }
  }

  ghost predicate DirsGrow(s: State, s': State) {
    s'.dirs.Keys == s.dirs.Keys && forall m | m in s.dirs :: s.dirs[m] <= s'.dirs[m]
  }

  /** Masters only ever gain groups, and that keeps every round's bookkeeping true. */
  lemma InvGrow(s: State, s': State, order: seq<Server>, ids: set<Identifier>)
    requires Inv(s, order, ids) && DirsGrow(s, s')
    requires s' == s.(dirs := s'.dirs, cached := s'.cached)
    ensures Inv(s', order, ids)
  {
    forall u | u in s'.tasks ensures StageOk(s', order, ids, u, s'.tasks[u]) && StageSeesAdds(s', s'.tasks[u]) {
      assert StageOk(s, order, ids, u, s.tasks[u]) && StageSeesAdds(s, s.tasks[u]);
    }
  }

  /** Taking a free lock. */
  lemma InvAcquire(s: State, order: seq<Server>, ids: set<Identifier>, t: Task, id: Identifier)
    requires Inv(s, order, ids) && Enabled(s, Acquire(t, id)) && id in ids
    ensures Inv(Apply(s, order, Acquire(t, id)), order, ids)
  {
    var s' := s.(locks := s.locks[id := t]);
    forall u | u in s'.tasks ensures StageOk(s', order, ids, u, s'.tasks[u]) && StageSeesAdds(s', s'.tasks[u]) {
      assert StageOk(s, order, ids, u, s.tasks[u]) && StageSeesAdds(s, s.tasks[u]);
    }
    InvMove(s', order, ids, t, Locked(id));
  }

  /** A master takes an add whose sender alone holds the lock of the group. */
  lemma InvAdd(s: State, order: seq<Server>, ids: set<Identifier>, t: Task, m: Server, id: Identifier, check: Round)
    requires Inv(s, order, ids) && m in s.dirs && id in ids && !HasName(s.dirs[m], id)
    requires t in s.tasks && !s.tasks[t].Idle? && s.tasks[t].id == id && !HasPending(s.tasks[t])
    requires s.tasks[t].Sent? || s.tasks[t].ReadingBack?
    requires check.held <= check.failed
    requires forall k | 0 <= k < |s.added| && s.added[k].id == id :: s.added[k].master in check.held
    ensures Inv(AddOn(s, m, id, check), order, ids)
  {
    var grown := s.(dirs := s.dirs[m := s.dirs[m] + {Fresh(id)}]);
    InvGrow(s, grown, order, ids);
    var s' := AddOn(s, m, id, check);
    assert StageOk(s, order, ids, t, s.tasks[t]);
    forall u | u in s'.tasks ensures StageOk(s', order, ids, u, s'.tasks[u]) && StageSeesAdds(s', s'.tasks[u]) {
      assert StageOk(grown, order, ids, u, s.tasks[u]) && StageSeesAdds(grown, s.tasks[u]);
    }
  }

  /** A write takes effect. No other task is past its check of the same group: it has no lock. */
  lemma InvLand(s: State, order: seq<Server>, ids: set<Identifier>, t: Task)
    requires Inv(s, order, ids) && Enabled(s, Land(t))
    ensures Inv(Apply(s, order, Land(t)), order, ids)
  {
    var g := s.tasks[t];
    var m := g.pending.value;
    assert StageOk(s, order, ids, t, g) && StageSeesAdds(s, g);
    InvMove(s, order, ids, t, Landed(g));
    var moved := MoveTo(s, t, Landed(g));
    assert Apply(s, order, Land(t)) == AddOn(moved, m, g.id, g.check);
    if !HasName(s.dirs[m], g.id) {
      InvAdd(moved, order, ids, t, m, g.id, g.check);
    }
  }

  lemma InvAsk(s: State, order: seq<Server>, ids: set<Identifier>, t: Task, answered: bool)
    requires Inv(s, order, ids) && Enabled(s, Ask(t, answered))
    ensures Inv(Apply(s, order, Ask(t, answered)), order, ids)
  {
    hide Recognised, HasName, HoldersOf, Fresh, GroupName;
    var g := s.tasks[t];
    assert StageOk(s, order, ids, t, g) && StageSeesAdds(s, g);
    if g.check.next >= |order| {
      InvMove(s, order, ids, t, Writing(g.id, g.check));
    } else {
      var m := order[g.check.next];
      var reply := AskMaster(s, m, g.id, answered);
      if reply == Yes {
        var remembered := s.(cached := s.cached + {g.id});
        InvGrow(s, remembered, order, ids);
        InvFinish(remembered, order, ids, t, Found(g.id));
      } else {
        InvMove(s, order, ids, t, Checking(g.id, Advance(g.check, m, reply == Unreachable)));
      }
    }
  }

  lemma InvAskBack(s: State, order: seq<Server>, ids: set<Identifier>, t: Task, answered: bool)
    requires Inv(s, order, ids) && Enabled(s, AskBack(t, answered))
    ensures Inv(Apply(s, order, AskBack(t, answered)), order, ids)
  {
    hide Recognised, HasName, HoldersOf, Fresh, GroupName;
    var g := s.tasks[t];
    assert StageOk(s, order, ids, t, g) && StageSeesAdds(s, g);
    if g.back.next >= |order| {
      InvFinish(s, order, ids, t, NotThere(g.id, g.back));
    } else {
      var m := order[g.back.next];
      var reply := AskMaster(s, m, g.id, answered);
      if reply == Yes {
        var remembered := s.(cached := s.cached + {g.id});
        InvGrow(s, remembered, order, ids);
        InvFinish(remembered, order, ids, t, Found(g.id));
      } else {
        InvMove(s, order, ids, t, ReadingBack(g.id, g.check, g.pending, Advance(g.back, m, reply == Unreachable)));
      }
    }
  }

  /** The masters that took an add are seen to have the group. */
  lemma AddsAreSeen(s: State, ids: set<Identifier>, id: Identifier)
    requires AddedOk(s, ids)
    ensures forall k | 0 <= k < |s.added| && s.added[k].id == id :: s.added[k].master in HoldersOf(s, id)
  {
    hide Recognised, Fresh;
    forall k | 0 <= k < |s.added| && s.added[k].id == id ensures s.added[k].master in HoldersOf(s, id) {
      FreshIsRecognised(id);
      assert Fresh(id) in s.dirs[s.added[k].master];
    }
  }

  lemma InvBegin(s: State, order: seq<Server>, ids: set<Identifier>, t: Task)
    requires Inv(s, order, ids) && Enabled(s, Begin(t))
    ensures Inv(Apply(s, order, Begin(t)), order, ids)
  {
    var g := s.tasks[t];
    assert StageOk(s, order, ids, t, g);
    AddsAreSeen(s, ids, g.id);
    var next := Checking(g.id, Round(0, HoldersOf(s, g.id), {}));
    hide Recognised, Fresh;
    InvMove(s, order, ids, t, next);
  }

  lemma InvStep(s: State, order: seq<Server>, ids: set<Identifier>, step: Step)
    requires Inv(s, order, ids) && Enabled(s, step) && (step.Acquire? ==> step.id in ids)
    ensures Inv(Apply(s, order, step), order, ids)
  {
    hide Holds, HasName, GroupName, LegacyName, Fresh;
    var s' := Apply(s, order, step);
    match step
    case Acquire(t, id) => InvAcquire(s, order, ids, t, id);
    case HitCache(t) => InvFinish(s, order, ids, t, Found(s.tasks[t].id));
    case Begin(t) => InvBegin(s, order, ids, t);
    case Ask(t, answered) => InvAsk(s, order, ids, t, answered);
    case Send(t, target) => InvMove(s, order, ids, t, s'.tasks[t]);
    case Land(t) => InvLand(s, order, ids, t);
    case BeginReadBack(t) => InvMove(s, order, ids, t, s'.tasks[t]);
    case AskBack(t, answered) => InvAskBack(s, order, ids, t, answered);
    case Abort(t) => InvFinish(s, order, ids, t, Aborted(s.tasks[t].id));
    case Replicate(from, to, entry) => InvGrow(s, s', order, ids);
    case Remember(more) => InvGrow(s, s', order, ids);
    case Forget(gone) => InvGrow(s, s', order, ids);
  }

  // ---- What one step does ----

  predicate HasCheck(g: Stage) {
    g.Checking? || g.Writing? || g.Sent? || g.ReadingBack?
  }

  /** A step of one task, told apart from what it does to the masters. */
  ghost predicate Moves(s: State, s': State, step: Step) {
    if step.Replicate? || step.Remember? || step.Forget? then
      && s'.tasks == s.tasks && s'.locks == s.locks && s'.added == s.added && s'.ended == s.ended
    else
      var t, g, g' := step.task, StageOf(s, step.task), StageOf(s', step.task);
      && s'.tasks == s.tasks[t := g']
      && RoundsMove(s, g, g', step)
      && (s'.added == s.added
          || (step.Land? && HasCheck(g) && |s'.added| > 0 && s'.added[..|s'.added| - 1] == s.added
              && s'.added[|s'.added| - 1].id == g.id && s'.added[|s'.added| - 1].check == g.check))
      && (if g'.Idle? then
            |s'.ended| > 0 && s'.ended[..|s'.ended| - 1] == s.ended && Ends(g, step, s'.ended[|s'.ended| - 1])
          else s'.ended == s.ended)
      && (if step.Acquire? then g.Idle? && !g'.Idle? && g'.id !in s.locks && s'.locks == s.locks[g'.id := t]
          else !g.Idle? && if g'.Idle? then s'.locks == s.locks - {g.id} else g'.id == g.id && s'.locks == s.locks)
  }

  ghost predicate RoundsMove(s: State, g: Stage, g': Stage, step: Step) {
    && (HasCheck(g') ==>
          if step.Begin? then !g.Idle? && g'.id == g.id && g'.check.held == HoldersOf(s, g.id)
          else HasCheck(g) && g'.id == g.id && g'.check.held == g.check.held)
    && (g'.ReadingBack? ==>
          if step.BeginReadBack? then g'.back.held == HoldersOf(s, g'.id) && g'.back.failed == {}
          else g.ReadingBack? && g'.back.held == g.back.held
               && ((step.AskBack? && !step.answered) || g'.back.failed == g.back.failed))
  }

  predicate Ends(g: Stage, step: Step, e: Ended) {
    && !g.Idle? && e.id == g.id
    && (e.NotThere? ==> g.ReadingBack? && e.back == g.back)
    && (e.Aborted? ==> step.Abort?)
  }

  lemma AskMoves(s: State, order: seq<Server>, step: Step)
    requires Covers(order, s) && Enabled(s, step) && step.Ask?
    ensures Moves(s, Apply(s, order, step), step)
  {
    hide HoldersOf, Holds, HasName, Fresh, Valid;
  }

  lemma AskBackMoves(s: State, order: seq<Server>, step: Step)
    requires Covers(order, s) && Enabled(s, step) && step.AskBack?
    ensures Moves(s, Apply(s, order, step), step)
  {
    hide HoldersOf, Holds, HasName, Fresh, Valid;
  }

  lemma LandMoves(s: State, order: seq<Server>, step: Step)
    requires Covers(order, s) && Enabled(s, step) && step.Land?
    ensures Moves(s, Apply(s, order, step), step)
  {
    hide HoldersOf, Holds, HasName, Fresh, Valid;
  }

  lemma OtherMoves(s: State, order: seq<Server>, step: Step)
    requires Covers(order, s) && Enabled(s, step) && !step.Ask? && !step.AskBack? && !step.Land?
    ensures Moves(s, Apply(s, order, step), step)
  {
    hide HoldersOf, Holds, HasName, Fresh, Valid;
  }

  lemma StepMoves(s: State, order: seq<Server>, step: Step)
    requires Covers(order, s) && Enabled(s, step)
    ensures Moves(s, Apply(s, order, step), step)
  {
    hide Enabled, Apply, Moves;
    match step
    case Ask(_, _) => AskMoves(s, order, step);
    case AskBack(_, _) => AskBackMoves(s, order, step);
    case Land(_) => LandMoves(s, order, step);
    case _ => OtherMoves(s, order, step);
  }

  lemma StepGrows(s: State, order: seq<Server>, step: Step)
    requires Covers(order, s) && Enabled(s, step)
    ensures DirsGrow(s, Apply(s, order, step))
  {
    hide Holds, HasName, HoldersOf, Fresh, Valid;
  }

  // ---- What was there from the start is never overlooked ----

  ghost predicate SeesStart(s0: State, s: State) {
    && DirsGrow(s0, s)
    && (forall t | t in s.tasks && HasCheck(s.tasks[t]) :: HoldersOf(s0, s.tasks[t].id) <= s.tasks[t].check.held)
    && (forall k | 0 <= k < |s.added| ::
          && HoldersOf(s0, s.added[k].id) <= s.added[k].check.held
          && s.added[k].master in s0.dirs && !HasName(s0.dirs[s.added[k].master], s.added[k].id))
  }

  lemma SeesStartMove(s0: State, s: State, t: Task, g: Stage)
    requires SeesStart(s0, s) && (HasCheck(g) ==> HoldersOf(s0, g.id) <= g.check.held)
    ensures SeesStart(s0, MoveTo(s, t, g))
  {}

  lemma SeesStartAdd(s0: State, s: State, m: Server, id: Identifier, check: Round)
    requires SeesStart(s0, s) && m in s.dirs && HoldersOf(s0, id) <= check.held
    ensures SeesStart(s0, AddOn(s, m, id, check))
  {}

  lemma HoldersGrow(s0: State, s: State, id: Identifier)
    requires DirsGrow(s0, s)
    ensures HoldersOf(s0, id) <= HoldersOf(s, id)
  {}

  lemma SeesStartLand(s0: State, s: State, order: seq<Server>, t: Task)
    requires SeesStart(s0, s) && Covers(order, s) && Enabled(s, Land(t))
    ensures SeesStart(s0, Apply(s, order, Land(t)))
  {
    var g := s.tasks[t];
    SeesStartAdd(s0, s, g.pending.value, g.id, g.check);
    hide SeesStart;
    SeesStartMove(s0, AddOn(s, g.pending.value, g.id, g.check), t, Landed(g));
  }

  lemma SeesStartStep(s0: State, s: State, order: seq<Server>, step: Step)
    requires SeesStart(s0, s) && Covers(order, s) && Enabled(s, step)
    ensures SeesStart(s0, Apply(s, order, step))
  {
    StepGrows(s, order, step);
    StepMoves(s, order, step);
    if step.Land? {
      SeesStartLand(s0, s, order, step.task);
    } else if step.Begin? {
      HoldersGrow(s0, s, s.tasks[step.task].id);
    }
    hide Apply, HasName, HoldersOf, Ends;
  }

  lemma {:induction false} RunKeeps(s0: State, s: State, order: seq<Server>, ids: set<Identifier>, steps: seq<Step>,
                                     s': State)
    requires Inv(s, order, ids) && SeesStart(s0, s)
    requires Runs(s, order, steps, s') && Uses(steps, ids)
    ensures Inv(s', order, ids) && SeesStart(s0, s')
    decreases |steps|
  {
    if steps == [] {
    } else {
      assert steps[0].Acquire? ==> steps[0].id in ids;
      InvStep(s, order, ids, steps[0]);
      SeesStartStep(s0, s, order, steps[0]);
      assert forall k | 0 <= k < |steps[1..]| :: steps[1..][k] == steps[k + 1];
      RunKeeps(s0, Apply(s, order, steps[0]), order, ids, steps[1..], s');
    }
  }

  // ---- What a call is told ----

  predicate StartsRound(s: State, step: Step, id: Identifier, back: bool) {
    && (if back then step.BeginReadBack? else step.Begin?)
    && !StageOf(s, step.task).Idle? && StageOf(s, step.task).id == id
  }

  /** At some point of the run a round of questions about `id` began, and `held` had the group then. */
  ghost predicate Began(s0: State, order: seq<Server>, steps: seq<Step>, id: Identifier, held: set<Server>, back: bool)
    requires Covers(order, s0)
  {
    exists i, mid :: && 0 <= i < |steps| && Runs(s0, order, steps[..i], mid)
                     && StartsRound(mid, steps[i], id, back) && held == HoldersOf(mid, id)
  }

  lemma BeganMore(s0: State, order: seq<Server>, steps: seq<Step>, step: Step)
    requires Covers(order, s0)
    ensures forall id, held, back | Began(s0, order, steps, id, held, back) ::
              Began(s0, order, steps + [step], id, held, back)
  {
    hide Runs, StartsRound, HoldersOf;
    forall id, held, back | Began(s0, order, steps, id, held, back)
      ensures Began(s0, order, steps + [step], id, held, back)
    {
      var i, mid :| && 0 <= i < |steps| && Runs(s0, order, steps[..i], mid)
                    && StartsRound(mid, steps[i], id, back) && held == HoldersOf(mid, id);
      assert (steps + [step])[..i] == steps[..i];
    }
  }

  lemma BeginsNow(s0: State, order: seq<Server>, steps: seq<Step>, s: State, step: Step, id: Identifier, back: bool)
    requires Covers(order, s0) && Runs(s0, order, steps, s) && StartsRound(s, step, id, back)
    ensures Began(s0, order, steps + [step], id, HoldersOf(s, id), back)
  {
    hide Runs, StartsRound, HoldersOf;
    assert (steps + [step])[..|steps|] == steps;
  }

  /** Every round that the tasks are in did begin as it says. */
  ghost predicate TasksBegan(s0: State, order: seq<Server>, steps: seq<Step>, s: State)
    requires Covers(order, s0)
  {
    && (forall t | t in s.tasks && HasCheck(s.tasks[t]) ::
          Began(s0, order, steps, s.tasks[t].id, s.tasks[t].check.held, false))
    && (forall t | t in s.tasks && s.tasks[t].ReadingBack? ::
          Began(s0, order, steps, s.tasks[t].id, s.tasks[t].back.held, true))
  }

  /** So did the rounds that led to an add, or to a call's end. */
  ghost predicate ResultsBegan(s0: State, order: seq<Server>, steps: seq<Step>, s: State)
    requires Covers(order, s0)
  {
    && (forall k | 0 <= k < |s.added| :: Began(s0, order, steps, s.added[k].id, s.added[k].check.held, false))
    && (forall k | 0 <= k < |s.ended| && s.ended[k].NotThere? ::
          Began(s0, order, steps, s.ended[k].id, s.ended[k].back.held, true))
  }

  /** Some step put the group into the cache from outside. */
  ghost predicate Told(steps: seq<Step>, id: Identifier) {
    exists k :: 0 <= k < |steps| && steps[k].Remember? && id in steps[k].ids
  }

  /** A master has the group now, or it was remembered from elsewhere. */
  ghost predicate Known(s0: State, steps: seq<Step>, s: State, id: Identifier) {
    HoldersOf(s, id) != {} || id in s0.cached || Told(steps, id)
  }

  predicate ReadsAnswered(steps: seq<Step>) {
    forall k | 0 <= k < |steps| && steps[k].AskBack? :: steps[k].answered
  }

  predicate NobodyAborts(steps: seq<Step>) {
    forall k | 0 <= k < |steps| :: !steps[k].Abort?
  }

  predicate NothingForgotten(steps: seq<Step>) {
    forall k | 0 <= k < |steps| :: !steps[k].Forget?
  }

  /** What is cached and what was found is known. */
  ghost predicate FindsKnown(s0: State, steps: seq<Step>, s: State) {
    && (forall id | id in s.cached :: Known(s0, steps, s, id))
    && (forall k | 0 <= k < |s.ended| && s.ended[k].Found? :: Known(s0, steps, s, s.ended[k].id))
  }

  /** Unless anything is forgotten, what was found or told is cached. */
  ghost predicate CacheRight(steps: seq<Step>, s: State) {
    NothingForgotten(steps) ==>
      && (forall k | 0 <= k < |s.ended| && s.ended[k].Found? :: s.ended[k].id in s.cached)
      && forall id | Told(steps, id) :: id in s.cached
  }

  /** Only unanswered questions fail, and only deadlines abort. */
  ghost predicate EndsRight(steps: seq<Step>, s: State) {
    && (ReadsAnswered(steps) ==> forall k | 0 <= k < |s.ended| && s.ended[k].NotThere? :: s.ended[k].back.failed == {})
    && (ReadsAnswered(steps) ==> forall t | t in s.tasks && s.tasks[t].ReadingBack? :: s.tasks[t].back.failed == {})
    && (NobodyAborts(steps) ==> forall k | 0 <= k < |s.ended| :: !s.ended[k].Aborted?)
  }

  /** Locks are held by those at work, and by nobody else. */
  ghost predicate LocksRight(s: State) {
    && (forall id | id in s.locks :: !StageOf(s, s.locks[id]).Idle? && StageOf(s, s.locks[id]).id == id)
    && (forall t | t in s.tasks && !s.tasks[t].Idle? :: s.tasks[t].id in s.locks && s.locks[s.tasks[t].id] == t)
  }

  lemma KnownStays(s0: State, steps: seq<Step>, step: Step, s: State, s': State, id: Identifier)
    requires DirsGrow(s, s') && Known(s0, steps, s, id)
    ensures Known(s0, steps + [step], s', id)
  {
    HoldersGrow(s, s', id);
    hide HoldersOf;
    if k :| 0 <= k < |steps| && steps[k].Remember? && id in steps[k].ids {
      assert (steps + [step])[k] == steps[k];
    }
  }

  lemma FewerSteps(steps: seq<Step>, step: Step)
    ensures ReadsAnswered(steps + [step]) ==> ReadsAnswered(steps) && (step.AskBack? ==> step.answered)
    ensures NobodyAborts(steps + [step]) ==> NobodyAborts(steps) && !step.Abort?
    ensures NothingForgotten(steps + [step]) ==> NothingForgotten(steps) && !step.Forget?
  {
    var all := steps + [step];
    assert forall k | 0 <= k < |steps| :: all[k] == steps[k];
    assert all[|steps|] == step;
  }

  lemma ToldOneMore(steps: seq<Step>, step: Step)
    ensures forall id :: Told(steps + [step], id) <==> Told(steps, id) || (step.Remember? && id in step.ids)
  {
    var all := steps + [step];
    assert all[|steps|] == step && forall k | 0 <= k < |steps| :: all[k] == steps[k];
    forall id | Told(steps, id) ensures Told(all, id) {
      var k :| 0 <= k < |steps| && steps[k].Remember? && id in steps[k].ids;
      assert all[k] == steps[k];
    }
  }

  lemma FindsStep(s0: State, order: seq<Server>, steps: seq<Step>, s: State, step: Step)
    requires FindsKnown(s0, steps, s) && Covers(order, s) && Enabled(s, step)
    ensures FindsKnown(s0, steps + [step], Apply(s, order, step))
  {
    var s', all := Apply(s, order, step), steps + [step];
    StepGrows(s, order, step);
    forall id | Known(s0, steps, s, id) ensures Known(s0, all, s', id) {
      KnownStays(s0, steps, step, s, s', id);
    }
    if step.Remember? {
      assert all[|steps|] == step;
      assert forall id | id in step.ids :: Told(all, id);
    }
    if step.Ask? || step.AskBack? {
      assert forall m | m in order :: m in s.dirs;
      forall m | m in s.dirs && Holds(s.dirs[m], s.tasks[step.task].id)
        ensures Known(s0, steps, s, s.tasks[step.task].id)
      {
        assert m in HoldersOf(s, s.tasks[step.task].id);
      }
    }
    hide Told, DirsGrow, HoldersOf, Holds, HasName, Fresh, Valid, Covers;
    assert FindsKnown(s0, all, s') by {
      FindsAfter(s0, order, steps, s, step);
    }
  }

  lemma FindsAfter(s0: State, order: seq<Server>, steps: seq<Step>, s: State, step: Step)
    requires FindsKnown(s0, steps, s) && Covers(order, s) && Enabled(s, step)
    requires var s', all := Apply(s, order, step), steps + [step];
             forall id | Known(s0, steps, s, id) || (step.Remember? && id in step.ids) :: Known(s0, all, s', id)
    requires step.Ask? || step.AskBack? ==>
               forall m | m in s.dirs && Holds(s.dirs[m], s.tasks[step.task].id) ::
                 Known(s0, steps, s, s.tasks[step.task].id)
    ensures FindsKnown(s0, steps + [step], Apply(s, order, step))
  {
    hide Known, DirsGrow, HoldersOf, Holds, HasName, Fresh, Valid;
  }

  lemma CacheStep(s: State, order: seq<Server>, steps: seq<Step>, step: Step)
    requires CacheRight(steps, s) && Covers(order, s) && Enabled(s, step)
    ensures CacheRight(steps + [step], Apply(s, order, step))
  {
    FewerSteps(steps, step);
    ToldOneMore(steps, step);
    StepMoves(s, order, step);
    FoundIsCached(s, order, step);
    hide Told, NothingForgotten, Enabled, Apply, RoundsMove, Ends;
  }

  lemma EndsStep(s: State, order: seq<Server>, steps: seq<Step>, step: Step)
    requires EndsRight(steps, s) && Covers(order, s) && Enabled(s, step)
    ensures EndsRight(steps + [step], Apply(s, order, step))
  {
    FewerSteps(steps, step);
    StepMoves(s, order, step);
    hide ReadsAnswered, NobodyAborts, NothingForgotten, Enabled, Apply, HoldersOf;
  }

  lemma FoundIsCached(s: State, order: seq<Server>, step: Step)
    requires Covers(order, s) && Enabled(s, step)
    ensures var s' := Apply(s, order, step);
            && (!step.Forget? ==> s.cached <= s'.cached)
            && (step.Remember? ==> step.ids <= s'.cached)
            && (s'.ended != s.ended && s'.ended[|s'.ended| - 1].Found? ==> s'.ended[|s'.ended| - 1].id in s'.cached)
  {
    hide HoldersOf, Holds, HasName, Fresh, Valid;
  }

  lemma LocksStep(s: State, order: seq<Server>, step: Step)
    requires LocksRight(s) && Covers(order, s) && Enabled(s, step)
    ensures LocksRight(Apply(s, order, step))
  {
    hide Enabled, Apply, RoundsMove, Ends, HasCheck;
    StepMoves(s, order, step);
  }

  lemma TasksStep(s0: State, order: seq<Server>, steps: seq<Step>, s: State, step: Step)
    requires Covers(order, s0) && Covers(order, s) && Runs(s0, order, steps, s) && Enabled(s, step)
    requires TasksBegan(s0, order, steps, s)
    ensures TasksBegan(s0, order, steps + [step], Apply(s, order, step))
  {
    hide Began, Runs, Apply, HoldersOf;
    BeganMore(s0, order, steps, step);
    StepMoves(s, order, step);
    if step.Begin? {
      BeginsNow(s0, order, steps, s, step, s.tasks[step.task].id, false);
    } else if step.BeginReadBack? {
      BeginsNow(s0, order, steps, s, step, s.tasks[step.task].id, true);
    }
  }

  lemma ResultsStep(s0: State, order: seq<Server>, steps: seq<Step>, s: State, step: Step)
    requires Covers(order, s0) && Covers(order, s) && Enabled(s, step)
    requires TasksBegan(s0, order, steps, s) && ResultsBegan(s0, order, steps, s)
    ensures ResultsBegan(s0, order, steps + [step], Apply(s, order, step))
  {
    hide Began, HoldersOf, Apply, Enabled, RoundsMove;
    BeganMore(s0, order, steps, step);
    StepMoves(s, order, step);
  }

  /** A run without its last step. */
  lemma {:induction false} RunsFront(s: State, order: seq<Server>, steps: seq<Step>, s': State) returns (mid: State)
    requires Covers(order, s) && Runs(s, order, steps, s') && steps != []
    ensures Covers(order, mid) && Runs(s, order, steps[..|steps| - 1], mid)
    ensures Enabled(mid, steps[|steps| - 1]) && s' == Apply(mid, order, steps[|steps| - 1])
    decreases |steps|
  {
    var front := steps[..|steps| - 1];
    if front == [] {
      mid := s;
    } else {
      mid := RunsFront(Apply(s, order, steps[0]), order, steps[1..], s');
      assert steps[1..][..|steps| - 2] == front[1..];
    }
  }

  lemma {:induction false} RunIsHonest(s0: State, order: seq<Server>, steps: seq<Step>, s: State)
    requires Initial(s0) && Covers(order, s0) && Runs(s0, order, steps, s)
    ensures FindsKnown(s0, steps, s) && CacheRight(steps, s) && EndsRight(steps, s) && LocksRight(s)
    ensures TasksBegan(s0, order, steps, s) && ResultsBegan(s0, order, steps, s)
    decreases |steps|
  {
    if steps == [] {
    } else {
      var mid := RunsFront(s0, order, steps, s);
      hide FindsKnown, CacheRight, EndsRight, LocksRight, TasksBegan, ResultsBegan, Runs, Enabled, Apply;
      var front, last := steps[..|steps| - 1], steps[|steps| - 1];
      RunIsHonest(s0, order, front, mid);
      assert front + [last] == steps;
      FindsStep(s0, order, front, mid, last);
      CacheStep(mid, order, front, last);
      EndsStep(mid, order, front, last);
      LocksStep(mid, order, last);
      TasksStep(s0, order, front, mid, last);
      ResultsStep(s0, order, front, mid, last);
    }
  }

  // ---- Main results ----

  /**
    In every run, whatever the interleaving, replication and failures: an add that a master
    accepts as new was decided by a round of questions in which every master that already had
    the group failed to answer. This covers those that had it before the run as well as the
    master of any earlier add of the same name, which is never the same master.
   */
  lemma SecondMasterNeedsSilence(s0: State, order: seq<Server>, ids: set<Identifier>, steps: seq<Step>, s: State)
    requires Initial(s0) && Covers(order, s0) && Runs(s0, order, steps, s) && Uses(steps, ids) && NoClash(ids)
    ensures forall k | 0 <= k < |s.added| ::
              && Began(s0, order, steps, s.added[k].id, s.added[k].check.held, false)
              && HoldersOf(s0, s.added[k].id) <= s.added[k].check.held <= s.added[k].check.failed
    ensures forall i, j | 0 <= i < j < |s.added| && GroupName(s.added[i].id) == GroupName(s.added[j].id) ::
              && s.added[i].master != s.added[j].master
              && s.added[i].master in s.added[j].check.failed
  {
    RunKeeps(s0, s0, order, ids, steps, s);
    RunIsHonest(s0, order, steps, s);
    hide Runs, Began;
  }

  ghost predicate AllAnswered(steps: seq<Step>) {
    forall k | 0 <= k < |steps| && steps[k].Ask? :: steps[k].answered
  }

  ghost predicate NoneFailed(s: State) {
    && (forall t | t in s.tasks && HasCheck(s.tasks[t]) :: s.tasks[t].check.failed == {})
    && (forall k | 0 <= k < |s.added| :: s.added[k].check.failed == {})
  }

  lemma NoneFailedStep(s: State, order: seq<Server>, step: Step)
    requires NoneFailed(s) && Covers(order, s) && Enabled(s, step) && (step.Ask? ==> step.answered)
    ensures NoneFailed(Apply(s, order, step))
  {
    if step.Land? {
      assert HasCheck(s.tasks[step.task]);
      var before := AddOn(s, s.tasks[step.task].pending.value, s.tasks[step.task].id, s.tasks[step.task].check);
      assert NoneFailed(before);
    }
  }

  lemma {:induction false} NoneFailedRun(s: State, order: seq<Server>, steps: seq<Step>, s': State)
    requires NoneFailed(s) && Covers(order, s) && Runs(s, order, steps, s') && AllAnswered(steps)
    ensures NoneFailed(s')
    decreases |steps|
  {
    if steps == [] {
    } else {
      NoneFailedStep(s, order, steps[0]);
      assert forall k | 0 <= k < |steps[1..]| :: steps[1..][k] == steps[k + 1];
      NoneFailedRun(Apply(s, order, steps[0]), order, steps[1..], s');
    }
  }

  /** No two adds were of one name. */
  ghost predicate OnceEach(s: State) {
    forall i, j | 0 <= i < j < |s.added| :: GroupName(s.added[i].id) != GroupName(s.added[j].id)
  }

  /**
    When every master answers, each name is added on one master at most, and only if nobody had
    an entry to begin with that is recognised as the group.
   */
  lemma OneMasterWhenAllAnswer(s0: State, order: seq<Server>, ids: set<Identifier>, steps: seq<Step>, s: State)
    requires Initial(s0) && Covers(order, s0) && Runs(s0, order, steps, s) && Uses(steps, ids) && NoClash(ids)
    requires AllAnswered(steps)
    ensures OnceEach(s)
    ensures forall k, m | 0 <= k < |s.added| && m in s0.dirs :: !Holds(s0.dirs[m], s.added[k].id)
  {
    SecondMasterNeedsSilence(s0, order, ids, steps, s);
    NoneFailedRun(s0, order, steps, s);
    assert forall k | 0 <= k < |s.added| :: HoldersOf(s0, s.added[k].id) <= {};
    forall k, m | 0 <= k < |s.added| && m in s0.dirs ensures !Holds(s0.dirs[m], s.added[k].id) {
      assert m !in HoldersOf(s0, s.added[k].id);
    }
  }

  /**
    A call reports that the group is not there only if every master that had it when the
    read-back began, its own add included, failed to answer; so if all did answer, no master
    had it then.
   */
  lemma NotThereNeedsSilence(s0: State, order: seq<Server>, ids: set<Identifier>, steps: seq<Step>, s: State)
    requires Initial(s0) && Covers(order, s0) && Runs(s0, order, steps, s) && Uses(steps, ids)
    ensures forall k | 0 <= k < |s.ended| && s.ended[k].NotThere? ::
              && Began(s0, order, steps, s.ended[k].id, s.ended[k].back.held, true)
              && s.ended[k].back.held <= s.ended[k].back.failed
              && (ReadsAnswered(steps) ==> s.ended[k].back.held == {})
  {
    RunKeeps(s0, s0, order, ids, steps, s);
    RunIsHonest(s0, order, steps, s);
    hide Runs, SeesStart, Began;
  }

  /**
    A call reports that it found the group only if some master has it, unless the agent
    remembered it from before the run or from elsewhere. It is then remembered, until it is
    forgotten. Nothing else ends a call without an answer but its deadline.
   */
  lemma FoundIsThere(s0: State, order: seq<Server>, steps: seq<Step>, s: State)
    requires Initial(s0) && Covers(order, s0) && Runs(s0, order, steps, s)
    ensures forall k | 0 <= k < |s.ended| && s.ended[k].Found? ::
              || (exists m | m in s.dirs :: Holds(s.dirs[m], s.ended[k].id))
              || s.ended[k].id in s0.cached
              || (exists j :: 0 <= j < |steps| && steps[j].Remember? && s.ended[k].id in steps[j].ids)
    ensures NothingForgotten(steps) ==> forall k | 0 <= k < |s.ended| && s.ended[k].Found? :: s.ended[k].id in s.cached
    ensures NothingForgotten(steps) ==>
              forall j | 0 <= j < |steps| && steps[j].Remember? :: steps[j].ids <= s.cached
    ensures NobodyAborts(steps) ==> forall k | 0 <= k < |s.ended| :: !s.ended[k].Aborted?
  {
    RunIsHonest(s0, order, steps, s);
    assert forall j, id | 0 <= j < |steps| && steps[j].Remember? && id in steps[j].ids :: Told(steps, id);
    forall k | 0 <= k < |s.ended| && s.ended[k].Found? && HoldersOf(s, s.ended[k].id) != {}
      ensures exists m | m in s.dirs :: Holds(s.dirs[m], s.ended[k].id)
    {
      var m :| m in HoldersOf(s, s.ended[k].id);
    }
  }

  /**
    At most one task at a time is anywhere between taking a group's lock and letting it go, and
    there is one exactly while the lock is taken.
   */
  lemma OneTaskPerGroup(s0: State, order: seq<Server>, steps: seq<Step>, s: State)
    requires Initial(s0) && Covers(order, s0) && Runs(s0, order, steps, s)
    ensures forall t, u | !StageOf(s, t).Idle? && !StageOf(s, u).Idle? && StageOf(s, t).id == StageOf(s, u).id :: t == u
    ensures forall id :: id in s.locks <==> exists t :: !StageOf(s, t).Idle? && StageOf(s, t).id == id
  {
    RunIsHonest(s0, order, steps, s);
    hide Known, Began, Runs;
    forall id | id in s.locks ensures exists t :: !StageOf(s, t).Idle? && StageOf(s, t).id == id {
      assert !StageOf(s, s.locks[id]).Idle?;
    }
  }

  // ---- Building runs ----

  /** A run of groups `ids` in which every question is answered. */
  ghost predicate GoodRun(s0: State, order: seq<Server>, ids: set<Identifier>, steps: seq<Step>, s: State) {
    && Covers(order, s0) && Covers(order, s)
    && Runs(s0, order, steps, s) && AllAnswered(steps) && Uses(steps, ids)
  }

  lemma {:induction false} RunsThen(s0: State, order: seq<Server>, steps: seq<Step>, s: State, step: Step)
    requires Covers(order, s0) && Covers(order, s) && Runs(s0, order, steps, s)
    requires Enabled(s, step) && Covers(order, Apply(s, order, step))
    ensures Runs(s0, order, steps + [step], Apply(s, order, step))
    decreases |steps|
  {
    var all := steps + [step];
    if steps == [] {
      assert all[1..] == [];
    } else {
      assert all[1..] == steps[1..] + [step];
      RunsThen(Apply(s0, order, steps[0]), order, steps[1..], s, step);
    }
  }

  lemma Extend(s0: State, order: seq<Server>, ids: set<Identifier>, steps: seq<Step>, s: State, step: Step, s': State)
      returns (longer: seq<Step>)
    requires GoodRun(s0, order, ids, steps, s) && Enabled(s, step) && Apply(s, order, step) == s' && Covers(order, s')
    requires (step.Ask? ==> step.answered) && (step.Acquire? ==> step.id in ids)
    ensures GoodRun(s0, order, ids, longer, s')
  {
    RunsThen(s0, order, steps, s, step);
    longer := steps + [step];
  }

  /** Asking a master that does not have the group. */
  lemma AskMiss(s: State, order: seq<Server>, t: Task, id: Identifier, k: nat)
    requires Covers(order, s) && k < |order| && StageOf(s, t) == Checking(id, Round(k, {}, {}))
    requires HoldersOf(s, id) == {}
    ensures Apply(s, order, Ask(t, true)) == MoveTo(s, t, Checking(id, Round(k + 1, {}, {})))
  {
    assert order[k] in s.dirs && order[k] !in HoldersOf(s, id);
  }

  /** A task takes a free lock, asks every master and finds nothing. */
  lemma TaskChecks(s0: State, order: seq<Server>, ids: set<Identifier>, before: seq<Step>, s: State,
                   t: Task, id: Identifier)
      returns (steps: seq<Step>, s': State)
    requires GoodRun(s0, order, ids, before, s) && id in ids && Valid(id)
    requires StageOf(s, t).Idle? && id !in s.locks && id !in s.cached && HoldersOf(s, id) == {}
    ensures GoodRun(s0, order, ids, steps, s')
    ensures s' == s.(tasks := s.tasks[t := Checking(id, Round(|order|, {}, {}))], locks := s.locks[id := t])
  {
    hide Holds, Recognised, GroupName, LegacyName, Valid, Runs, Uses, AllAnswered;
    var locked := s.(locks := s.locks[id := t]);
    steps := Extend(s0, order, ids, before, s, Acquire(t, id), MoveTo(locked, t, Locked(id)));
    s' := MoveTo(locked, t, Checking(id, Round(0, {}, {})));
    SameDirsSameHolders(MoveTo(locked, t, Locked(id)), s, id);
    steps := Extend(s0, order, ids, steps, MoveTo(locked, t, Locked(id)), Begin(t), s');
    var k := 0;
    while k < |order|
      invariant 0 <= k <= |order|
      invariant s' == MoveTo(locked, t, Checking(id, Round(k, {}, {})))
      invariant GoodRun(s0, order, ids, steps, s')
    {
      var next := MoveTo(locked, t, Checking(id, Round(k + 1, {}, {})));
      SameDirsSameHolders(s', s, id);
      AskMiss(s', order, t, id, k);
      steps := Extend(s0, order, ids, steps, s', Ask(t, true), next);
      s', k := next, k + 1;
    }
  }

  /** ... and then sends its add to `target`. */
  lemma TaskSends(s0: State, order: seq<Server>, ids: set<Identifier>, before: seq<Step>, s: State,
                  t: Task, id: Identifier, target: Server)
      returns (steps: seq<Step>, s': State)
    requires GoodRun(s0, order, ids, before, s) && id in ids && Valid(id) && target in order
    requires StageOf(s, t).Idle? && id !in s.locks && id !in s.cached && HoldersOf(s, id) == {}
    ensures GoodRun(s0, order, ids, steps, s')
    ensures s' == s.(tasks := s.tasks[t := Sent(id, Round(|order|, {}, {}), Some(target))], locks := s.locks[id := t])
  {
    hide Holds, GroupName, LegacyName, Valid, Runs, Uses, AllAnswered, HoldersOf;
    var s1;
    steps, s1 := TaskChecks(s0, order, ids, before, s, t, id);
    var s2 := MoveTo(s1, t, Writing(id, Round(|order|, {}, {})));
    steps := Extend(s0, order, ids, steps, s1, Ask(t, true), s2);
    s' := MoveTo(s2, t, Sent(id, Round(|order|, {}, {}), Some(target)));
    steps := Extend(s0, order, ids, steps, s2, Send(t, Some(target)), s');
  }

  lemma SameDirsSameHolders(s: State, s': State, id: Identifier)
    requires s.dirs == s'.dirs
    ensures HoldersOf(s, id) == HoldersOf(s', id)
  {}

  /** ... which takes effect there. */
  lemma TaskLands(s0: State, order: seq<Server>, ids: set<Identifier>, before: seq<Step>, s: State, t: Task,
                  id: Identifier, check: Round, m: Server)
      returns (steps: seq<Step>, s': State)
    requires GoodRun(s0, order, ids, before, s) && StageOf(s, t) == Sent(id, check, Some(m))
    requires m in s.dirs && !HasName(s.dirs[m], id)
    ensures GoodRun(s0, order, ids, steps, s')
    ensures s' == s.(dirs := s.dirs[m := s.dirs[m] + {Fresh(id)}], added := s.added + [Added(id, m, check)],
                     tasks := s.tasks[t := Sent(id, check, None)])
  {
    hide Holds, HasName, GroupName, LegacyName, Fresh, Runs, Uses, AllAnswered, HoldersOf;
    s' := Apply(s, order, Land(t));
    steps := Extend(s0, order, ids, before, s, Land(t), s');
  }

  // ---- Replication ----

  /** These masters have been given the entry. */
  function Spread(dirs: map<Server, set<Entry>>, to: seq<Server>, entry: Entry): map<Server, set<Entry>> {
    map m | m in dirs :: if m in to then dirs[m] + {entry} else dirs[m]
  }

  lemma SpreadMore(dirs: map<Server, set<Entry>>, to: seq<Server>, m: Server, entry: Entry)
    requires m in dirs
    ensures var spread := Spread(dirs, to, entry);
            Spread(dirs, to + [m], entry) == spread[m := spread[m] + {entry}]
  {}

  lemma OneMoreReached(s: State, order: seq<Server>, steps: seq<Step>, n: nat, from: Server, entry: Entry)
    requires Covers(order, s) && n < |order| && from in order && entry in s.dirs[from]
    requires Runs(s, order, steps, s.(dirs := Spread(s.dirs, order[..n], entry)))
    ensures Runs(s, order, steps + [Replicate(from, order[n], entry)],
                 s.(dirs := Spread(s.dirs, order[..n + 1], entry)))
  {
    var mid, step := s.(dirs := Spread(s.dirs, order[..n], entry)), Replicate(from, order[n], entry);
    assert order[..n + 1] == order[..n] + [order[n]];
    SpreadMore(s.dirs, order[..n], order[n], entry);
    hide Runs;
    RunsThen(s, order, steps, mid, step);
  }

  /** An entry of one master can reach every other by replication alone, in one step for each. */
  lemma ReachesEveryMaster(s: State, order: seq<Server>, from: Server, entry: Entry)
      returns (steps: seq<Step>, s': State)
    requires Covers(order, s) && from in order && entry in s.dirs[from]
    ensures Runs(s, order, steps, s') && |steps| == |order| && forall k | 0 <= k < |steps| :: steps[k].Replicate?
    ensures s' == s.(dirs := s'.dirs) && s'.dirs.Keys == s.dirs.Keys
    ensures forall m | m in s.dirs :: s'.dirs[m] == s.dirs[m] + {entry}
  {
    steps := [];
    assert Spread(s.dirs, order[..0], entry) == s.dirs;
    assert Runs(s, order, steps, s);
    while |steps| < |order|
      invariant |steps| <= |order| && forall k | 0 <= k < |steps| :: steps[k].Replicate?
      invariant Runs(s, order, steps, s.(dirs := Spread(s.dirs, order[..|steps|], entry)))
    {
      hide Runs, Spread, Covers;
      OneMoreReached(s, order, steps, |steps|, from, entry);
      steps := steps + [Replicate(from, order[|steps|], entry)];
    }
    assert order[..|steps|] == order;
    s' := s.(dirs := Spread(s.dirs, order, entry));
  }

  // ---- What is not recognised ----

  /** Some master has an entry of the group's name and some has none, but nobody recognises any. */
  ghost predicate Overlooked(s: State, id: Identifier) {
    && HoldersOf(s, id) == {}
    && (exists b | b in s.dirs :: HasName(s.dirs[b], id))
    && (exists a | a in s.dirs :: !HasName(s.dirs[a], id))
  }

  /** A name was added only where no master had it to begin with, recognised or not. */
  ghost predicate AddedAfresh(s0: State, s: State) {
    forall k, m | 0 <= k < |s.added| && m in s0.dirs :: !HasName(s0.dirs[m], s.added[k].id)
  }

  /** A run in which a name is added beside an entry that is not recognised. */
  lemma OverlookedIsAddedAgain(s0: State, order: seq<Server>, ids: set<Identifier>, id: Identifier)
      returns (steps: seq<Step>, s: State)
    requires Initial(s0) && Covers(order, s0) && id in ids && Valid(id) && Overlooked(s0, id)
    ensures GoodRun(s0, order, ids, steps, s) && !AddedAfresh(s0, s)
  {
    var a :| a in s0.dirs && !HasName(s0.dirs[a], id);
    var b :| b in s0.dirs && HasName(s0.dirs[b], id);
    assert GoodRun(s0, order, ids, [], s0);
    hide Holds, HasName, GroupName, LegacyName, Valid, Fresh, Runs, Uses, AllAnswered, HoldersOf, GoodRun;
    var cleared := s0.(cached := s0.cached - {id});
    steps := Extend(s0, order, ids, [], s0, Forget({id}), cleared);
    SameDirsSameHolders(s0, cleared, id);
    var sent;
    steps, sent := TaskSends(s0, order, ids, steps, cleared, 1, id, a);
    steps, s := TaskLands(s0, order, ids, steps, sent, 1, id, Round(|order|, {}, {}), a);
    assert s.added == [Added(id, a, Round(|order|, {}, {}))];
    assert b in s0.dirs && HasName(s0.dirs[b], s.added[0].id);
  }

  /**
    Exactly when no run with every question answered adds a name that some master already had:
    no group is there in name on some master only, without anybody recognising it. Groups that
    the agent made itself are always recognised.
   */
  lemma AddedAfreshIff(s0: State, order: seq<Server>, ids: set<Identifier>)
    requires Initial(s0) && Covers(order, s0) && forall id | id in ids :: Valid(id)
    ensures (forall steps, s | GoodRun(s0, order, ids, steps, s) :: AddedAfresh(s0, s)) <==>
            (forall id | id in ids :: !Overlooked(s0, id))
  {
    if id :| id in ids && Overlooked(s0, id) {
      var steps, s := OverlookedIsAddedAgain(s0, order, ids, id);
    } else {
      forall steps, s | GoodRun(s0, order, ids, steps, s) ensures AddedAfresh(s0, s) {
        RunAddsAfresh(s0, order, ids, steps, s);
      }
    }
  }

  lemma RunAddsAfresh(s0: State, order: seq<Server>, ids: set<Identifier>, steps: seq<Step>, s: State)
    requires Initial(s0) && GoodRun(s0, order, ids, steps, s) && forall id | id in ids :: !Overlooked(s0, id)
    ensures AddedAfresh(s0, s)
  {
    RunKeeps(s0, s0, order, ids, steps, s);
    NoneFailedRun(s0, order, steps, s);
    forall k, m | 0 <= k < |s.added| && m in s0.dirs ensures !HasName(s0.dirs[m], s.added[k].id) {
      var x := s.added[k];
      assert x.id in ids && HoldersOf(s0, x.id) <= x.check.held <= {};
      assert x.master in s0.dirs && !HasName(s0.dirs[x.master], x.id);
    }
  }

  // ---- Where the lock does not reach ----

  // Locks are kept per identifier but directories per name. By Names.NamesClashIff the two
  // differ only for one project of two internal portals, such as x.system and x.instance.

  function NoGroups(order: seq<Server>): State {
    State(map m | m in order :: {}, {}, map[], map[], [], [])
  }

  /**
    So the same name can be added on two masters although every master answers every question:
    two tasks ask for two internal groups that share a name, each under its own lock.
   */
  lemma ClashingNamesReachTwoMasters(order: seq<Server>, ids: set<Identifier>, i: Identifier, j: Identifier, a: Server,
                                     b: Server)
      returns (s0: State, steps: seq<Step>, s: State)
    requires i in ids && j in ids && Valid(i) && Valid(j) && i != j && GroupName(i) == GroupName(j)
    requires a in order && b in order && a != b
    ensures Initial(s0) && GoodRun(s0, order, ids, steps, s)
    ensures |s.added| == 2 && s.added[0].id == i && s.added[1].id == j
            && s.added[0].master == a && s.added[1].master == b
    ensures !OnceEach(s)
  {
    s0 := NoGroups(order);
    assert HoldersOf(s0, i) == {} && HoldersOf(s0, j) == {};
    assert !HasName(s0.dirs[a], i) && !HasName(s0.dirs[b], j);
    steps := [];
    assert GoodRun(s0, order, ids, steps, s0) && Initial(s0);
    hide Holds, HasName, GroupName, LegacyName, Valid, Fresh, Runs, Uses, AllAnswered, HoldersOf, GoodRun, Initial;
    var s1, s2, s3;
    var check := Round(|order|, {}, {});
    steps, s1 := TaskSends(s0, order, ids, steps, s0, 1, i, a);
    SameDirsSameHolders(s0, s1, j);
    steps, s2 := TaskSends(s0, order, ids, steps, s1, 2, j, b);
    steps, s3 := TaskLands(s0, order, ids, steps, s2, 1, i, check, a);
    steps, s := TaskLands(s0, order, ids, steps, s3, 2, j, check, b);
    assert s.added == [Added(i, a, check), Added(j, b, check)];
  }

  /**
    Exactly when each name is added on one master at most in every run with every question
    answered, whatever the masters hold to begin with: no two of the groups share a name.
   */
  lemma OneMasterIff(order: seq<Server>, ids: set<Identifier>, a: Server, b: Server)
    requires a in order && b in order && a != b && forall id | id in ids :: Valid(id)
    ensures (forall s0, steps, s | Initial(s0) && GoodRun(s0, order, ids, steps, s) :: OnceEach(s)) <==> NoClash(ids)
  {
    if NoClash(ids) {
      forall s0, steps, s | Initial(s0) && GoodRun(s0, order, ids, steps, s) ensures OnceEach(s) {
        OneMasterWhenAllAnswer(s0, order, ids, steps, s);
      }
    } else {
      var i, j :| i in ids && j in ids && GroupName(i) == GroupName(j) && i != j;
      var s0, steps, s := ClashingNamesReachTwoMasters(order, ids, i, j, a, b);
    }
  }
}
