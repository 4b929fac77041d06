/**
  What holds over whole runs of the user procedures: who is enabled, who stays blocked, and
  what it takes to disable somebody who is still on another instance.
 */
module UserRuns {
  import opened Directory
  import opened Identifiers
  import opened Names
  import opened Text
  import opened UserLifecycle
  import opened Wrappers

  datatype Op =
    | Add(user: User, peer: Peer)
    | Remove(user: User, peer: Peer, first: bool, second: bool)
    | Block(user: User)
    | Unblock(user: User)

  function SpecOp(site: Site, d: Dir, op: Op): Dir {
    match op
    case Add(u, p) => AddSpec(site, d, u, p)
    case Remove(u, p, first, second) => RemoveSpec(site, d, u, p, first, second)
    case Block(u) => BlockSpec(d, u)
    case Unblock(u) => UnblockSpec(d, u)
  }

  function SpecRun(site: Site, d: Dir, ops: seq<Op>): Dir {
    if ops == [] then d else SpecOp(site, SpecRun(site, d, ops[..|ops| - 1]), ops[|ops| - 1])
  }

  /** Users come from portals, not from the agent's own name spaces; peers give valid groups. */
  ghost predicate Proper(op: Op) {
    && Valid(op.user.project) && op.user.project.portal !in INTERNAL_PORTALS
    && (op.Add? || op.Remove? ==> Valid(OpGroup(op.peer)))
  }

  // ---- Blocked users stay blocked, whatever fails ----

  ghost predicate UnblockedBy(ops: seq<Op>, v: User) {
    exists k :: 0 <= k < |ops| && ops[k] == Unblock(v)
  }

  ghost predicate StillBlocked(d: Dir, d': Dir, v: User) {
    v in d.users && d.users[v].Blocked() ==>
      v in d'.users && d'.users[v].Blocked() && (d'.users[v].enabled ==> d.users[v].enabled)
  }

  /** The same operation, apart from what the listings answered. */
  predicate SameOp(a: Op, b: Op) {
    a == b || (a.Remove? && b.Remove? && a.user == b.user && a.peer == b.peer)
  }

  /** Every group named like a project's has an identifier in its description. */
  ghost predicate Readable(groups: map<string, string>) {
    forall id | Valid(id) && id.portal !in INTERNAL_PORTALS && GroupName(id) in groups ::
      DescribedIdentifier(groups[GroupName(id)]).Some?
  }

  lemma ReadableIsFindable(groups: map<string, string>, ids: seq<Identifier>)
    requires Readable(groups) && forall id | id in ids :: Valid(id)
    ensures AllFindable(groups, ids)
  {
    hide GroupName, Valid, DescribedIdentifier;
  }

  lemma AllFindableIsReadable(groups: map<string, string>)
    requires forall id | Valid(id) :: Findable(groups, id)
    ensures Readable(groups)
  {}

  lemma {:induction false} EnsuredAllKeepsReadable(groups: map<string, string>, ids: seq<Identifier>)
    requires Readable(groups) && forall id | id in ids :: Valid(id)
    ensures Readable(EnsuredAll(groups, ids))
  {
    forall id | Valid(id) ensures Findable(EnsuredAll(groups, ids), id) {
      assert Findable(groups, id);
      EnsuredAllKeepsFindable(groups, ids, id);
    }
    hide Valid, Findable, EnsuredAll;
    AllFindableIsReadable(EnsuredAll(groups, ids));
  }

  /** What the operations do keeps groups readable: they describe every group that they add. */
  lemma OpKeepsReadable(site: Site, d: Dir, op: Op)
    requires Tidy(site, d) && Proper(op) && Readable(d.groups)
    ensures Readable(SpecOp(site, d, op).groups)
  {
    match op
    case Add(u, p) =>
      WantedIsValid(site, u, p, d);
      AddedGroups(site, d, u, p);
      EnsuredAllKeepsReadable(d.groups, [MANAGED]);
      assert EnsuredAll(d.groups, [MANAGED]) == Ensured(d.groups, MANAGED);
      EnsuredAllKeepsReadable(d.groups, Wanted(site, u, p));
      EnsuredAllKeepsReadable(Ensured(d.groups, MANAGED), Wanted(site, u, p));
    case Remove(u, p, first, second) =>
    case Block(u) =>
      forall id | Valid(id) ensures GroupName(id) != BLOCKED_NAME {
        NeverNamedBlocked(id);
      }
      hide GroupName, Valid, DescribedIdentifier;
    case Unblock(u) =>
  }

  lemma AddedGroups(site: Site, d: Dir, u: User, p: Peer)
    ensures AddSpec(site, d, u, p).groups in
            {d.groups,
             EnsuredAll(d.groups, Wanted(site, u, p)),
             EnsuredAll(Ensured(d.groups, MANAGED), Wanted(site, u, p))}
  {
    hide Ensured, EnsuredAll, Wanted, GroupName, NamesFor;
  }

  method RunOp(ipa: FreeIPA, site: Site, op: Op) returns (did: Op)
    requires Tidy(site, ipa.View()) && Proper(op)
    modifies ipa
    ensures SameOp(did, op) && Tidy(site, ipa.View()) && ipa.failures >= old(ipa.failures)
    ensures op.Unblock? || Safe(old(ipa.View()), ipa.View(), op.user)
    ensures OnlyTouches(old(ipa.View()), ipa.View(), op.user)
    ensures ipa.failures == old(ipa.failures) && old(Readable(ipa.groups)) ==>
              ipa.View() == SpecOp(site, old(ipa.View()), did) && Readable(ipa.groups)
  {
    did := op;
    if op.Add? && Readable(ipa.groups) {
      WantedIsValid(site, op.user, op.peer, ipa.View());
      ReadableIsFindable(ipa.groups, Wanted(site, op.user, op.peer));
    }
    ghost var before := ipa.View();
    hide Readable, AllFindable, SpecOp;
    did := RunOne(ipa, site, op);
    if ipa.failures == old(ipa.failures) && Readable(before.groups) {
      OpKeepsReadable(site, before, did);
    }
  }

  method RunOne(ipa: FreeIPA, site: Site, op: Op) returns (did: Op)
    requires Tidy(site, ipa.View()) && Proper(op)
    modifies ipa
    ensures SameOp(did, op) && Tidy(site, ipa.View()) && ipa.failures >= old(ipa.failures)
    ensures op.Unblock? || Safe(old(ipa.View()), ipa.View(), op.user)
    ensures OnlyTouches(old(ipa.View()), ipa.View(), op.user)
    ensures ipa.failures == old(ipa.failures)
            && (op.Add? ==> AllFindable(old(ipa.groups), Wanted(site, op.user, op.peer))) ==>
              ipa.View() == SpecOp(site, old(ipa.View()), did)
  {
    did := op;
    match op {
      case Add(u, p) =>
        var _ := AddUserProcedure(ipa, site, u, p);
      case Remove(u, p, _, _) =>
        var ok, first, second := RemoveUserProcedure(ipa, site, u, p);
        did := Remove(u, p, first, second);
      case Block(u) =>
        var _ := BlockUserProcedure(ipa, u);
      case Unblock(u) =>
        var _ := UnblockUserProcedure(ipa, u);
    }
  }

  /**
    Over every run of the procedures, with any writes failing at any point and any listing
    unanswered, a blocked user stays blocked and is not enabled unless they are unblocked. If
    no write fails, and no group is in the way of a project's without being recognised, the run
    is the run of the specifications.
   */
  method RunAll(ipa: FreeIPA, site: Site, ops: seq<Op>) returns (did: seq<Op>)
    requires Tidy(site, ipa.View()) && forall k | 0 <= k < |ops| :: Proper(ops[k])
    modifies ipa
    ensures |did| == |ops| && forall k | 0 <= k < |ops| :: SameOp(did[k], ops[k])
    ensures forall v :: !UnblockedBy(ops, v) ==> StillBlocked(old(ipa.View()), ipa.View(), v)
    ensures ipa.failures == old(ipa.failures) && old(Readable(ipa.groups)) ==>
              ipa.View() == SpecRun(site, old(ipa.View()), did)
  {
    did := [];
    for i := 0 to |ops|
      invariant Tidy(site, ipa.View()) && ipa.failures >= old(ipa.failures)
      invariant |did| == i && forall k | 0 <= k < i :: SameOp(did[k], ops[k])
      invariant forall v :: !UnblockedBy(ops, v) ==> StillBlocked(old(ipa.View()), ipa.View(), v)
      invariant ipa.failures == old(ipa.failures) && old(Readable(ipa.groups)) ==>
                  ipa.View() == SpecRun(site, old(ipa.View()), did) && Readable(ipa.groups)
    {
      ghost var before := ipa.View();
      var done := RunOp(ipa, site, ops[i]);
      forall v | !UnblockedBy(ops, v) ensures StillBlocked(old(ipa.View()), ipa.View(), v) {
        assert StillBlocked(old(ipa.View()), before, v);
        assert ops[i] != Unblock(v);
        assert StillBlocked(before, ipa.View(), v) by {
          if ops[i].user == v {
            assert Safe(before, ipa.View(), v);
          }
        }
      }
      assert (did + [done])[..i] == did;
      did := did + [done];
    }
  }

  // ---- Who is enabled ----

  predicate SeenAsInstance(site: Site, groups: map<string, string>, u: User, name: string) {
    var id := Identify(site.internal, groups, u.project.portal, name);
    id.Some? && id.value.portal == "instance"
  }

  /** The user is in a group that the agent sees as an instance group. */
  ghost predicate OnInstance(site: Site, d: Dir, u: User)
    requires u in d.users
  {
    exists name :: name in d.users[u].memberOf && SeenAsInstance(site, d.groups, u, name)
  }

  /** Where the group of an instance exists, it is seen as what it is. */
  ghost predicate Recognised(site: Site, groups: map<string, string>) {
    forall p: Peer, portal: string | GroupName(OpGroup(p)) in groups ::
      Identify(site.internal, groups, portal, GroupName(OpGroup(p))) == Some(OpGroup(p))
  }

  /** No configured group takes the name of an instance's own group without being it. */
  ghost predicate Apart(id: Identifier) {
    forall p: Peer | GroupName(id) == GroupName(OpGroup(p)) :: id == OpGroup(p)
  }

  ghost predicate NamesApart(site: Site) {
    && (forall id | id in site.system :: Apart(id))
    && (forall p, id | p in site.instances && id in site.instances[p] :: Apart(id))
  }

  ghost predicate Sound(site: Site, d: Dir) {
    && Tidy(site, d) && NamesApart(site) && Recognised(site, d.groups)
    && (forall u | u in d.users :: d.users[u].memberOf <= d.groups.Keys)
  }

  ghost predicate GroupsGrow(g: map<string, string>, g': map<string, string>) {
    forall n | n in g :: n in g' && g'[n] == g[n]
  }

  lemma {:induction false} SanitisedHasNoDot(s: string)
    ensures |Sanitised(s)| == |s| && '.' !in Sanitised(s)
    ensures forall k | 0 <= k < |s| && (s[k] == '_' || s[k] == '-') :: Sanitised(s)[k] == '_'
  {
    if s == [] {
    } else {
      SanitisedHasNoDot(s[1..]);
      assert forall k | 0 < k < |s| :: s[k] == s[1..][k - 1];
    }
  }

  /** Neither the managed group nor a project's group is named like a group of an instance. */
  lemma OthersAreApart(id: Identifier)
    requires Valid(id) && (id == MANAGED || id.portal !in INTERNAL_PORTALS)
    ensures Apart(id)
  {
    forall p: Peer ensures GroupName(id) != GroupName(OpGroup(p)) {
      SanitisedHasNoDot("op-" + p);
      assert ("op-" + p)[2] == '-';
      assert GroupName(OpGroup(p)) == OpGroup(p).project;
      if id == MANAGED {
        assert GroupName(id)[2] == 'e';
      } else {
        assert GroupName(id)[|id.portal|] == '.';
      }
    }
  }

  lemma NeverBlockedName(groups: map<string, string>, id: Identifier)
    requires Valid(id)
    ensures NameFor(groups, id) != BLOCKED_NAME
  {
    NeverNamedBlocked(id);
    assert ("group." + id.project)[0] == 'g' && BLOCKED_NAME[0] == 'o';
  }

  lemma EnsuredFacts(site: Site, groups: map<string, string>, id: Identifier)
    requires Valid(id) && Apart(id) && Recognised(site, groups) && BlockedGroupOurs(groups)
    ensures var g := Ensured(groups, id);
            && GroupsGrow(groups, g) && Recognised(site, g) && BlockedGroupOurs(g)
            && NameFor(groups, id) in g
  {
    var g := Ensured(groups, id);
    if NameFor(groups, id) in groups {
      return;
    }
    NeverNamedBlocked(id);
    DescribeRoundTrip(id, WORDS);
    forall p: Peer, portal: string | GroupName(OpGroup(p)) in g
      ensures Identify(site.internal, g, portal, GroupName(OpGroup(p))) == Some(OpGroup(p))
    {
      if GroupName(OpGroup(p)) !in groups {
        assert GroupName(id) == GroupName(OpGroup(p));
      } else {
        assert Identify(site.internal, groups, portal, GroupName(OpGroup(p))) == Some(OpGroup(p));
      }
    }
  }

  lemma {:induction false} EnsuredAllFacts(site: Site, groups: map<string, string>, ids: seq<Identifier>)
    requires forall id | id in ids :: Valid(id) && Apart(id)
    requires Recognised(site, groups) && BlockedGroupOurs(groups)
    ensures var g := EnsuredAll(groups, ids);
            GroupsGrow(groups, g) && Recognised(site, g) && BlockedGroupOurs(g) && NamesFor(groups, ids) <= g.Keys
    ensures BLOCKED_NAME !in NamesFor(groups, ids)
    ensures forall id | id in ids && id.portal in INTERNAL_PORTALS :: GroupName(id) in NamesFor(groups, ids)
  {
    if ids == [] {
    } else {
      var init, last := ids[..|ids| - 1], ids[|ids| - 1];
      EnsuredAllFacts(site, groups, init);
      EnsuredFacts(site, EnsuredAll(groups, init), last);
      NeverBlockedName(EnsuredAll(groups, init), last);
    }
  }

  lemma WantedFacts(site: Site, u: User, p: Peer)
    requires NamesApart(site) && Proper(Add(u, p))
    requires forall id | id in site.system :: Valid(id)
    requires forall q | q in site.instances :: forall id | id in site.instances[q] :: Valid(id)
    ensures forall id | id in Wanted(site, u, p) :: Valid(id) && Apart(id)
    ensures MANAGED in Wanted(site, u, p) && OpGroup(p) in Wanted(site, u, p)
  {
    OthersAreApart(MANAGED);
    OthersAreApart(u.project);
    SanitisedHasNoDot("op-" + p);
    assert Apart(OpGroup(p));
    assert OpGroup(p) in InstanceGroups(site, p) by {
      if g :| g in InstanceGroups(site, p) && GroupName(g) == GroupName(OpGroup(p))
              && p in site.instances && g in site.instances[p] {
        assert Apart(g);
      }
    }
  }

  /** What a name is taken for does not change while groups are only added. */
  lemma OnInstanceStable(site: Site, d: Dir, d': Dir, u: User)
    requires u in d.users && u in d'.users && d'.users[u].memberOf == d.users[u].memberOf
    requires GroupsGrow(d.groups, d'.groups) && d.users[u].memberOf <= d.groups.Keys
    ensures OnInstance(site, d', u) <==> OnInstance(site, d, u)
  {
    forall name | name in d.users[u].memberOf
      ensures Identify(site.internal, d'.groups, u.project.portal, name) ==
                Identify(site.internal, d.groups, u.project.portal, name)
    {
      assert name in d.groups;
    }
  }

  /** After syncing, the user is managed, not blocked if they were not, and on the instance. */
  lemma SyncedFacts(site: Site, d: Dir, u: User, p: Peer)
    requires Sound(site, d) && Proper(Add(u, p)) && u in d.users
    ensures var d' := Synced(site, d, u, p);
            && Sound(site, d') && GroupsGrow(d.groups, d'.groups) && u in d'.users
            && d'.users[u].Managed() && (d'.users[u].Blocked() <==> d.users[u].Blocked())
            && d'.users[u].enabled == d.users[u].enabled
            && OnInstance(site, d', u)
            && GroupName(OpGroup(p)) in d'.users[u].memberOf
  {
    var ids := Wanted(site, u, p);
    WantedFacts(site, u, p);
    EnsuredAllFacts(site, d.groups, ids);
    var d' := Synced(site, d, u, p);
    assert MANAGED.portal in INTERNAL_PORTALS && OpGroup(p).portal in INTERNAL_PORTALS;
    var name := GroupName(OpGroup(p));
    assert name in d'.users[u].memberOf;
    assert Identify(site.internal, d'.groups, u.project.portal, name) == Some(OpGroup(p));
  }

  /** A user who is new starts out in the managed group alone. */
  lemma NewUserFacts(site: Site, d: Dir, u: User, p: Peer)
    requires Sound(site, d) && Proper(Add(u, p)) && u !in d.users
    ensures var made := Dir(Ensured(d.groups, MANAGED), d.users[u := Account({GroupName(MANAGED)}, true)]);
            && Sound(site, made) && GroupsGrow(d.groups, made.groups)
            && made.users[u].Managed() && !made.users[u].Blocked()
  {
    assert NameFor(d.groups, MANAGED) == GroupName(MANAGED);
    OthersAreApart(MANAGED);
    EnsuredFacts(site, d.groups, MANAGED);
    NeverNamedBlocked(MANAGED);
  }

  lemma AddFacts(site: Site, d: Dir, u: User, p: Peer)
    requires Sound(site, d) && Proper(Add(u, p))
    ensures var d' := AddSpec(site, d, u, p);
            && Sound(site, d') && GroupsGrow(d.groups, d'.groups) && OnlyTouches(d, d', u) && u in d'.users
            && (u in d.users && (!d.users[u].Managed() || d.users[u].Blocked()) ==> d' == d)
            && ((u in d.users ==> d.users[u].Managed() && !d.users[u].Blocked()) ==>
                 d'.users[u].Managed() && !d'.users[u].Blocked() && d'.users[u].enabled && OnInstance(site, d', u))
  {
    if u !in d.users {
      NewUserFacts(site, d, u, p);
      SyncedFacts(site, Dir(Ensured(d.groups, MANAGED), d.users[u := Account({GroupName(MANAGED)}, true)]), u, p);
    } else if d.users[u].Managed() && !d.users[u].Blocked() {
      var enabled := d.(users := d.users[u := d.users[u].(enabled := true)]);
      assert Sound(site, enabled);
      SyncedFacts(site, enabled, u, p);
    }
  }

  /** Removal only ever takes groups away, and never the blocked group. */
  ghost predicate OnlyTakesAway(a: Account, a': Account) {
    && a'.memberOf <= a.memberOf
    && (a'.enabled ==> a.enabled)
    && (a'.Blocked() <==> a.Blocked())
  }

  lemma RemoveNowFacts(site: Site, d: Dir, u: User, p: Peer, second: bool)
    requires Sound(site, d) && Proper(Add(u, p)) && u in d.users
    ensures var d' := RemoveNow(site, d, u, p, second);
            && d' == d.(users := d.users[u := d'.users[u]])
            && OnlyTakesAway(d.users[u], d'.users[u])
  {
    WantedIsValid(site, u, p, d);
    forall id | id in InstanceGroups(site, p) ensures GroupName(id) != BLOCKED_NAME {
      NeverNamedBlocked(id);
    }
    BlockedIsNeverSeen(site.internal, d.groups, u.project.portal);
  }

  lemma RemoveFacts(site: Site, d: Dir, u: User, p: Peer, first: bool, second: bool)
    requires Sound(site, d) && Proper(Remove(u, p, first, second)) && u in d.users
    ensures var d' := RemoveSpec(site, d, u, p, first, second);
            && d' == d.(users := d.users[u := d'.users[u]])
            && OnlyTakesAway(d.users[u], d'.users[u])
  {
    RemoveNowFacts(site, d, u, p, second);
    assert d == d.(users := d.users[u := d.users[u]]);
  }

  /** Every operation keeps the directory sound, adds groups only, and touches one user. */
  lemma OpKeepsSound(site: Site, d: Dir, op: Op)
    requires Sound(site, d) && Proper(op)
    ensures var d' := SpecOp(site, d, op);
            Sound(site, d') && GroupsGrow(d.groups, d'.groups) && OnlyTouches(d, d', op.user)
  {
    match op
    case Add(u, p) => AddFacts(site, d, u, p);
    case Remove(u, p, first, second) =>
      if u in d.users {
        RemoveFacts(site, d, u, p, first, second);
      }
    case Block(u) => BlockKeepsSound(site, d, u);
    case Unblock(u) =>
  }

  lemma BlockKeepsSound(site: Site, d: Dir, u: User)
    requires Sound(site, d) && Proper(Block(u))
    ensures Sound(site, BlockSpec(d, u))
  {
    hide Identify, GroupName, OpGroup, DescribedIdentifier, Apart, WellNamed;
    BlockedHasNoIdentifier();
    var d' := BlockSpec(d, u);
    forall p: Peer, portal: string | GroupName(OpGroup(p)) in d'.groups
      ensures Identify(site.internal, d'.groups, portal, GroupName(OpGroup(p))) == Some(OpGroup(p))
    {
      BlockedIsApart(p);
      assert Identify(site.internal, d.groups, portal, GroupName(OpGroup(p))) == Some(OpGroup(p));
      IdentifyOther(site.internal, d.groups, portal, GroupName(OpGroup(p)), BLOCKED_NAME, BLOCKED_DESCRIPTION);
    }
  }

  /** A new group does not change what another name is taken for. */
  lemma IdentifyOther(internal: map<string, Identifier>, groups: map<string, string>, portal: string, name: string,
                      other: string, description: string)
    requires name != other
    ensures Identify(internal, groups[other := description], portal, name) == Identify(internal, groups, portal, name)
  {
    hide GroupName, DescribedIdentifier, LegacyIdentifier;
  }

  lemma BlockedIsApart(p: Peer)
    ensures GroupName(OpGroup(p)) != BLOCKED_NAME
  {
    SanitisedHasNoDot("op-" + p);
    assert BLOCKED_NAME[10] == '.';
  }

  // ---- Main results ----

  /** A managed user on an instance is enabled unless blocked, and a blocked one is not enabled. */
  ghost predicate EnabledUnlessBlocked(site: Site, d: Dir, u: User) {
    u in d.users && d.users[u].Managed() ==>
      && (d.users[u].Blocked() ==> !d.users[u].enabled)
      && (!d.users[u].Blocked() && OnInstance(site, d, u) ==> d.users[u].enabled)
  }

  /** Without blocking: a managed user is enabled exactly when they are on some instance. */
  ghost predicate EnabledIffOnInstance(site: Site, d: Dir, u: User) {
    u in d.users && d.users[u].Managed() ==>
      !d.users[u].Blocked() && (d.users[u].enabled <==> OnInstance(site, d, u))
  }

  lemma UntouchedStays(site: Site, d: Dir, op: Op, v: User)
    requires Sound(site, d) && Proper(op) && v != op.user
    ensures EnabledUnlessBlocked(site, d, v) ==> EnabledUnlessBlocked(site, SpecOp(site, d, op), v)
    ensures EnabledIffOnInstance(site, d, v) ==> EnabledIffOnInstance(site, SpecOp(site, d, op), v)
  {
    OpKeepsSound(site, d, op);
    if v in d.users {
      OnInstanceStable(site, d, SpecOp(site, d, op), v);
    }
  }

  /** Fewer groups never put a user on an instance they were not on. */
  lemma OnInstanceMonotone(site: Site, d: Dir, d': Dir, u: User)
    requires u in d.users && u in d'.users && d'.users[u].memberOf <= d.users[u].memberOf && d'.groups == d.groups
    ensures OnInstance(site, d', u) ==> OnInstance(site, d, u)
  {}

  /** With its listing answered, removal disables exactly those it leaves on no instance. */
  lemma RemoveNowDecides(site: Site, d: Dir, u: User, p: Peer)
    requires Sound(site, d) && Proper(Add(u, p)) && u in d.users
    ensures var d' := RemoveNow(site, d, u, p, true);
            d'.users[u].Managed() ==>
              d'.users[u].enabled == (d.users[u].enabled && OnInstance(site, d', u))
  {
    RemoveNowFacts(site, d, u, p, true);
    var d' := RemoveNow(site, d, u, p, true);
    var left := d.users[u].memberOf - (NameSet(InstanceGroups(site, p)) * d.groups.Keys);
    var seen := Seen(site, d.groups, u, left, true);
    if OnOther(seen, p) {
      var name :| name in seen && seen[name].portal == "instance" && seen[name] != OpGroup(p);
      assert name in d'.users[u].memberOf;
    } else {
      assert forall name | name in left && SeenAsInstance(site, d.groups, u, name) ::
          name in seen && name in ToLeave(seen) && name in d.groups;
    }
  }

  lemma RemoveKeepsStatus(site: Site, d: Dir, u: User, p: Peer)
    requires Sound(site, d) && Proper(Add(u, p)) && u in d.users
    ensures var d' := RemoveSpec(site, d, u, p, true, true);
            && (EnabledUnlessBlocked(site, d, u) ==> EnabledUnlessBlocked(site, d', u))
            && (EnabledIffOnInstance(site, d, u) ==> EnabledIffOnInstance(site, d', u))
  {
    RemoveNowDecides(site, d, u, p);
    RemoveNowFacts(site, d, u, p, true);
    OnInstanceMonotone(site, d, RemoveNow(site, d, u, p, true), u);
  }

  /** Listings that the operation relies on were answered. */
  predicate Answered(op: Op) {
    op.Remove? ==> op.first && op.second
  }

  lemma OpKeepsEnabledUnlessBlocked(site: Site, d: Dir, op: Op, v: User)
    requires Sound(site, d) && Proper(op) && Answered(op) && EnabledUnlessBlocked(site, d, v)
    ensures EnabledUnlessBlocked(site, SpecOp(site, d, op), v)
  {
    if v != op.user {
      UntouchedStays(site, d, op, v);
    } else {
      match op
      case Add(u, p) => AddFacts(site, d, u, p);
      case Remove(u, p, _, _) => if u in d.users { RemoveKeepsStatus(site, d, u, p); }
      case Block(u) =>
      case Unblock(u) =>
    }
  }

  lemma OpKeepsEnabledIffOnInstance(site: Site, d: Dir, op: Op, v: User)
    requires Sound(site, d) && Proper(op) && Answered(op) && (op.Add? || op.Remove?)
    requires EnabledIffOnInstance(site, d, v)
    ensures EnabledIffOnInstance(site, SpecOp(site, d, op), v)
  {
    if v != op.user {
      UntouchedStays(site, d, op, v);
    } else {
      match op
      case Add(u, p) => AddFacts(site, d, u, p);
      case Remove(u, p, _, _) => if u in d.users { RemoveKeepsStatus(site, d, u, p); }
    }
  }

  ghost predicate AllProper(ops: seq<Op>) {
    forall k | 0 <= k < |ops| :: Proper(ops[k]) && Answered(ops[k])
  }

  lemma {:induction false} RunKeepsSound(site: Site, d: Dir, ops: seq<Op>)
    requires Sound(site, d) && AllProper(ops)
    ensures Sound(site, SpecRun(site, d, ops))
  {
    if ops == [] {
    } else {
      RunKeepsSound(site, d, ops[..|ops| - 1]);
      OpKeepsSound(site, SpecRun(site, d, ops[..|ops| - 1]), ops[|ops| - 1]);
    }
  }

  /**
    Over every run of adds and removals of any users, on any number of instances: a managed
    user is enabled exactly when they are in the group of at least one instance.
   */
  lemma {:induction false} EnabledExactlyWhenOnInstance(site: Site, d: Dir, ops: seq<Op>, v: User)
    requires Sound(site, d) && AllProper(ops) && EnabledIffOnInstance(site, d, v)
    requires forall k | 0 <= k < |ops| :: ops[k].Add? || ops[k].Remove?
    ensures EnabledIffOnInstance(site, SpecRun(site, d, ops), v)
  {
    if ops == [] {
    } else {
      var init := ops[..|ops| - 1];
      EnabledExactlyWhenOnInstance(site, d, init, v);
      RunKeepsSound(site, d, init);
      OpKeepsEnabledIffOnInstance(site, SpecRun(site, d, init), ops[|ops| - 1], v);
    }
  }

  /**
    Over every run that also blocks and unblocks: a managed user on an instance is enabled
    exactly when they are not blocked, and a blocked user is never enabled.
   */
  lemma {:induction false} OnInstanceEnabledUnlessBlocked(site: Site, d: Dir, ops: seq<Op>, v: User)
    requires Sound(site, d) && AllProper(ops) && EnabledUnlessBlocked(site, d, v)
    ensures EnabledUnlessBlocked(site, SpecRun(site, d, ops), v)
  {
    if ops == [] {
    } else {
      var init := ops[..|ops| - 1];
      OnInstanceEnabledUnlessBlocked(site, d, init, v);
      RunKeepsSound(site, d, init);
      OpKeepsEnabledUnlessBlocked(site, SpecRun(site, d, init), ops[|ops| - 1], v);
    }
  }

  lemma UnblockKeepsOnInstance(site: Site, d: Dir, u: User)
    requires Sound(site, d) && u in d.users
    ensures OnInstance(site, UnblockSpec(d, u), u) <==> OnInstance(site, d, u)
  {
    BlockedIsNeverSeen(site.internal, d.groups, u.project.portal);
    assert forall name | name in d.users[u].memberOf && SeenAsInstance(site, d.groups, u, name) ::
        name in UnblockSpec(d, u).users[u].memberOf;
  }

  /** ... but unblocking enables the account whether or not it is still on any instance. */
  lemma UnblockEnablesRegardless(site: Site, d: Dir, u: User)
    requires Sound(site, d) && u in d.users && d.users[u].Managed() && d.users[u].Blocked()
    ensures EnabledIffOnInstance(site, UnblockSpec(d, u), u) <==> OnInstance(site, d, u)
  {
    var d' := UnblockSpec(d, u);
    UnblockedFacts(d.users[u]);
    assert d'.users[u] == Unblocked(d.users[u]);
    UnblockKeepsOnInstance(site, d, u);
    var on := OnInstance(site, d, u);
    assert OnInstance(site, d', u) == on;
  }

  function Unblocked(a: Account): Account {
    Account(a.memberOf - {BLOCKED_NAME}, true)
  }

  lemma UnblockedFacts(a: Account)
    requires a.Managed()
    ensures Unblocked(a).Managed() && !Unblocked(a).Blocked() && Unblocked(a).enabled
  {
    NeverNamedBlocked(MANAGED);
  }

  /** The user is in the group of instance `q`, and `q` has no group in common with `p`. */
  ghost predicate AlsoOn(site: Site, d: Dir, u: User, p: Peer, q: Peer)
    requires u in d.users
  {
    && GroupName(OpGroup(q)) in d.users[u].memberOf
    && GroupName(OpGroup(q)) !in NameSet(InstanceGroups(site, p))
    && OpGroup(q) != OpGroup(p)
  }

  /**
    Removal from one instance leaves an enabled user who is also on another enabled, unless a
    listing of their groups went unanswered: an unanswered listing counts as an empty one. It
    disables such a user exactly when the listing after leaving the instance fails, and the
    user was in the instance's group or the listing before that failed as well.
   */
  lemma RemovalSparesOtherInstances(site: Site, d: Dir, u: User, p: Peer, q: Peer, first: bool, second: bool)
    requires Sound(site, d) && Proper(Add(u, p)) && u in d.users && d.users[u].Managed() && d.users[u].enabled
    requires AlsoOn(site, d, u, p, q)
    ensures var d' := RemoveSpec(site, d, u, p, first, second);
            !d'.users[u].enabled <==> !second && (GroupName(OpGroup(p)) in d.users[u].memberOf || !first)
  {
    var name := GroupName(OpGroup(q));
    assert Identify(site.internal, d.groups, u.project.portal, name) == Some(OpGroup(q));
    assert first ==> name in Seen(site, d.groups, u, d.users[u].memberOf, first);
    var left := d.users[u].memberOf - (NameSet(InstanceGroups(site, p)) * d.groups.Keys);
    assert second ==> name in Seen(site, d.groups, u, left, second);
  }
}
