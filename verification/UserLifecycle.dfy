/**
  Adding, removing, blocking and unblocking users on any number of instances (`add_user`,
  `sync_groups`, `remove_user`, `block_user` and `unblock_user` in freeipa.rs).

  Each procedure is a method over the directory. Where no write fails it does exactly what its
  specification function says; whatever fails, it keeps the promises about blocked users. The
  user's lock is held throughout, so one procedure at a time runs for a user.
 */
module UserLifecycle {
  import opened Directory
  import opened Identifiers
  import opened Names
  import opened Wrappers

  type Peer = string

  /** What the agent is configured with, and the internal groups it has come across. */
  datatype Site = Site(
    system: seq<Identifier>,
    instances: map<Peer, seq<Identifier>>,
    internal: map<string, Identifier>
  )

  /** The characters a group name may not have are replaced in the name of a peer. */
  function Sanitised(s: string): string {
    if s == [] then []
    else
      var c := s[0];
      [if 'a' <= c <= 'z' || 'A' <= c <= 'Z' || '0' <= c <= '9' then c else '_'] + Sanitised(s[1..])
  }

  /** The group of the users of one instance (`get_op_instance_group`). */
  function OpGroup(peer: Peer): Identifier {
    Identifier(Sanitised("op-" + peer), "instance")
  }

  /** The configured groups of an instance, its own group always among them. */
  function InstanceGroups(site: Site, peer: Peer): seq<Identifier> {
    var configured := if peer in site.instances then site.instances[peer] else [];
    if exists g | g in configured :: GroupName(g) == GroupName(OpGroup(peer)) then configured
    else configured + [OpGroup(peer)]
  }

  /** Every group a user of the instance has to be in. */
  function Wanted(site: Site, u: User, peer: Peer): seq<Identifier> {
    site.system + InstanceGroups(site, peer) + [MANAGED] + [u.project]
  }

  // ---- Making sure that groups exist ----

  /** The name under which the group exists or will be created. */
  function NameFor(groups: map<string, string>, id: Identifier): string {
    if GroupName(id) !in groups && LegacyName(id).Some? && LegacyName(id).value in groups
    then LegacyName(id).value
    else GroupName(id)
  }

  function Ensured(groups: map<string, string>, id: Identifier): map<string, string> {
    if NameFor(groups, id) in groups then groups
    else groups[GroupName(id) := Describe(id, WORDS)]
  }

  function EnsuredAll(groups: map<string, string>, ids: seq<Identifier>): map<string, string> {
    if ids == [] then groups
    else Ensured(EnsuredAll(groups, ids[..|ids| - 1]), ids[|ids| - 1])
  }

  /** The names found or given while the groups are ensured one after another. */
  function NamesFor(groups: map<string, string>, ids: seq<Identifier>): set<string> {
    if ids == [] then {}
    else
      var init := ids[..|ids| - 1];
      NamesFor(groups, init) + {NameFor(EnsuredAll(groups, init), ids[|ids| - 1])}
  }

  /**
    The group as the agent finds it: internal groups and legacy ones by name, others only if an
    identifier can be read from their description.
   */
  function Lookup(groups: map<string, string>, id: Identifier): (r: Option<string>)
    ensures r.Some? ==> r.value in groups
  {
    if GroupName(id) in groups && Findable(groups, id) then Some(GroupName(id))
    else if LegacyName(id).Some? && LegacyName(id).value in groups then LegacyName(id)
    else None
  }

  /** No group is in the way that has the name but is not recognised. */
  predicate Findable(groups: map<string, string>, id: Identifier) {
    GroupName(id) in groups ==> id.portal in INTERNAL_PORTALS || DescribedIdentifier(groups[GroupName(id)]).Some?
  }

  predicate AllFindable(groups: map<string, string>, ids: seq<Identifier>) {
    forall id | id in ids :: Findable(groups, id)
  }

  lemma EnsuredIsFound(groups: map<string, string>, id: Identifier)
    requires Valid(id) && Findable(groups, id)
    ensures NameFor(groups, id) in Ensured(groups, id)
    ensures Lookup(Ensured(groups, id), id) == Some(NameFor(groups, id))
    ensures Lookup(groups, id) == if NameFor(groups, id) in groups then Some(NameFor(groups, id)) else None
  {
    DescribeRoundTrip(id, WORDS);
  }

  lemma EnsuredKeepsFindable(groups: map<string, string>, id: Identifier, other: Identifier)
    requires Valid(id) && Findable(groups, other)
    ensures Findable(Ensured(groups, id), other)
  {
    DescribeRoundTrip(id, WORDS);
  }

  lemma {:induction false} EnsuredAllKeepsFindable(groups: map<string, string>, ids: seq<Identifier>, other: Identifier)
    requires Findable(groups, other) && forall id | id in ids :: Valid(id)
    ensures Findable(EnsuredAll(groups, ids), other)
  {
    if ids == [] {
    } else {
      var front := ids[..|ids| - 1];
      EnsuredAllKeepsFindable(groups, front, other);
      EnsuredKeepsFindable(EnsuredAll(groups, front), ids[|ids| - 1], other);
    }
  }

  // ---- Specifications: what each procedure does when no write fails ----

  function Synced(site: Site, d: Dir, u: User, peer: Peer): Dir
    requires u in d.users
  {
    var ids := Wanted(site, u, peer);
    Dir(EnsuredAll(d.groups, ids),
        d.users[u := d.users[u].(memberOf := d.users[u].memberOf + NamesFor(d.groups, ids))])
  }

  function AddSpec(site: Site, d: Dir, u: User, peer: Peer): Dir {
    if u !in d.users then
      var groups := Ensured(d.groups, MANAGED);
      Synced(site, Dir(groups, d.users[u := Account({GroupName(MANAGED)}, true)]), u, peer)
    else if !d.users[u].Managed() || d.users[u].Blocked() then d
    else Synced(site, d.(users := d.users[u := d.users[u].(enabled := true)]), u, peer)
  }

  /** What one listing of a user's groups says: nothing at all if it failed. */
  function Seen(site: Site, groups: map<string, string>, u: User, names: set<string>, answered: bool)
    : map<string, Identifier>
  {
    if !answered then map[]
    else map name | name in names && Identify(site.internal, groups, u.project.portal, name).Some?
           :: Identify(site.internal, groups, u.project.portal, name).value
  }

  /** Some group of another instance is among them. */
  predicate OnOther(seen: map<string, Identifier>, peer: Peer) {
    exists name | name in seen :: seen[name].portal == "instance" && seen[name] != OpGroup(peer)
  }

  function NameSet(ids: seq<Identifier>): set<string> {
    set id | id in ids :: GroupName(id)
  }

  /** `first` and `second` say whether the two listings of the user's groups were answered. */
  function RemoveSpec(site: Site, d: Dir, u: User, peer: Peer, first: bool, second: bool): Dir {
    if u !in d.users then d
    else
      var a := d.users[u];
      if !a.Managed() || (!a.enabled && !a.Blocked()) then d
      else if GroupName(OpGroup(peer)) !in a.memberOf && OnOther(Seen(site, d.groups, u, a.memberOf, first), peer)
      then d
      else RemoveNow(site, d, u, peer, second)
  }

  /** Out of the instance's groups, and out of everything unless another instance is left. */
  function RemoveNow(site: Site, d: Dir, u: User, peer: Peer, second: bool): Dir
    requires u in d.users
  {
    var a := d.users[u];
    var left := a.memberOf - (NameSet(InstanceGroups(site, peer)) * d.groups.Keys);
    var seen := Seen(site, d.groups, u, left, second);
    if OnOther(seen, peer) then d.(users := d.users[u := a.(memberOf := left)])
    else d.(users := d.users[u := Account(left - (ToLeave(seen) * d.groups.Keys), false)])
  }

  /** Every group seen that a user leaves before being disabled: all but the managed group. */
  function ToLeave(seen: map<string, Identifier>): set<string> {
    set name | name in seen && seen[name] != MANAGED
  }

  function BlockSpec(d: Dir, u: User): Dir {
    if u !in d.users || !d.users[u].Managed() || d.users[u].Blocked() then d
    else
      var groups := if BLOCKED_NAME in d.groups then d.groups else d.groups[BLOCKED_NAME := BLOCKED_DESCRIPTION];
      Dir(groups, d.users[u := Account(d.users[u].memberOf + {BLOCKED_NAME}, false)])
  }

  function UnblockSpec(d: Dir, u: User): Dir {
    if u !in d.users || !d.users[u].Managed() || !d.users[u].Blocked() || BLOCKED_NAME !in d.groups then d
    else d.(users := d.users[u := Account(d.users[u].memberOf - {BLOCKED_NAME}, true)])
  }

  // ---- What no failure can break ----

  /** Everybody who was blocked still is, and has not been enabled. */
  ghost predicate BlockedKept(d: Dir, d': Dir) {
    forall v | v in d.users && d.users[v].Blocked() ::
      v in d'.users && d'.users[v].Blocked() && (d'.users[v].enabled ==> d.users[v].enabled)
  }

  /** Nobody but `u` is touched. */
  ghost predicate OnlyTouches(d: Dir, d': Dir, u: User) {
    forall v | v != u :: (v in d'.users <==> v in d.users) && (v in d.users ==> d'.users[v] == d.users[v])
  }

  /** A write that neither unblocks anyone nor enables someone who is blocked. */
  predicate Harmless(d: Dir, w: Write) {
    match w
    case Enable(u) => u in d.users ==> !d.users[u].Blocked()
    case RemoveMember(name, _) => name != BLOCKED_NAME
    case AddGroup(name, description) => name == BLOCKED_NAME ==> description == BLOCKED_DESCRIPTION
    case _ => true
  }

  /** The state of affairs the procedures rely on and keep. */
  ghost predicate Tidy(site: Site, d: Dir) {
    && WellNamed(site.internal)
    && BlockedGroupOurs(d.groups)
    && (forall id | id in site.system :: Valid(id))
    && (forall p | p in site.instances :: forall id | id in site.instances[p] :: Valid(id))
  }

  /** The frame every procedure for `u` keeps whatever fails. */
  ghost predicate Safe(d: Dir, d': Dir, u: User) {
    && BlockedKept(d, d')
    && OnlyTouches(d, d', u)
    && (forall n | n in d.groups :: n in d'.groups && d'.groups[n] == d.groups[n])
    && (BlockedGroupOurs(d.groups) ==> BlockedGroupOurs(d'.groups))
  }

  predicate Concerns(w: Write, u: User) {
    w.AddGroup? || w.user == u
  }

  lemma HarmlessIsSafe(d: Dir, w: Write, u: User)
    requires Harmless(d, w) && Concerns(w, u)
    ensures Safe(d, Effect(d, w), u)
  {
    match w
    case AddGroup(name, description) =>
      if name == BLOCKED_NAME {
        BlockedHasNoIdentifier();
      }
    case _ =>
      assert Effect(d, w).groups == d.groups;
  }

  lemma SafeTransitive(a: Dir, b: Dir, c: Dir, u: User)
    requires Safe(a, b, u) && Safe(b, c, u)
    ensures Safe(a, c, u)
  {}

  // ---- The procedures ----

  /** One write on behalf of `u`. */
  method Try(ipa: FreeIPA, w: Write, u: User) returns (r: Reply)
    requires Harmless(ipa.View(), w) && Concerns(w, u)
    modifies ipa
    ensures Safe(old(ipa.View()), ipa.View(), u)
    ensures ipa.failures >= old(ipa.failures)
    ensures ipa.failures == old(ipa.failures) ==>
              r == Answer(old(ipa.View()), w) && ipa.View() == Effect(old(ipa.View()), w)
    ensures r != Failed ==> ipa.failures == old(ipa.failures)
    ensures ipa.View() == old(ipa.View()) || ipa.View() == Effect(old(ipa.View()), w)
  {
    HarmlessIsSafe(ipa.View(), w, u);
    r := ipa.CallWrite(w);
  }

  method EnsureGroup(ipa: FreeIPA, id: Identifier, u: User) returns (name: Option<string>)
    requires Valid(id)
    modifies ipa
    ensures Safe(old(ipa.View()), ipa.View(), u) && ipa.users == old(ipa.users)
    ensures name.Some? ==> name.value in ipa.groups
    ensures ipa.failures >= old(ipa.failures)
    ensures ipa.failures == old(ipa.failures) && Findable(old(ipa.groups), id) ==>
              ipa.groups == Ensured(old(ipa.groups), id) && name == Some(NameFor(old(ipa.groups), id))
    ensures ipa.failures == old(ipa.failures) && !Findable(old(ipa.groups), id) ==>
              ipa.groups == old(ipa.groups) && name == Lookup(old(ipa.groups), id)
  {
    if Findable(ipa.groups, id) {
      EnsuredIsFound(ipa.groups, id);
    }
    name := Lookup(ipa.groups, id);
    if name.Some? {
      return;
    }
    NeverNamedBlocked(id);
    var _ := Try(ipa, AddGroup(GroupName(id), Describe(id, WORDS)), u);
    // whatever the add answered, believe only what can be read back
    name := Lookup(ipa.groups, id);
  }

  lemma WantedIsValid(site: Site, u: User, peer: Peer, d: Dir)
    requires Tidy(site, d) && Valid(u.project) && Valid(OpGroup(peer))
    ensures forall id | id in Wanted(site, u, peer) :: Valid(id)
    ensures forall id | id in InstanceGroups(site, peer) :: Valid(id)
  {}

  /** Make sure of all groups one after another, and return the names they are found under. */
  method EnsureGroups(ipa: FreeIPA, wanted: seq<Identifier>, u: User) returns (names: Option<set<string>>)
    requires forall id | id in wanted :: Valid(id)
    modifies ipa
    ensures Safe(old(ipa.View()), ipa.View(), u) && ipa.users == old(ipa.users) && ipa.failures >= old(ipa.failures)
    ensures names.Some? ==> forall n | n in names.value :: n in ipa.groups
    ensures ipa.failures == old(ipa.failures) && AllFindable(old(ipa.groups), wanted) ==>
              ipa.groups == EnsuredAll(old(ipa.groups), wanted) && names == Some(NamesFor(old(ipa.groups), wanted))
  {
    hide GroupName, LegacyName, Describe, NameFor, Ensured, Valid, Findable, Lookup;
    var found: set<string> := {};
    for i := 0 to |wanted|
      invariant ipa.users == old(ipa.users) && ipa.failures >= old(ipa.failures)
      invariant Safe(old(ipa.View()), ipa.View(), u)
      invariant forall n | n in found :: n in ipa.groups
      invariant ipa.failures == old(ipa.failures) && AllFindable(old(ipa.groups), wanted) ==>
                  && ipa.groups == EnsuredAll(old(ipa.groups), wanted[..i])
                  && found == NamesFor(old(ipa.groups), wanted[..i])
    {
      assert wanted[..i + 1][..i] == wanted[..i];
      ghost var before := ipa.View();
      if Findable(old(ipa.groups), wanted[i]) {
        EnsuredAllKeepsFindable(old(ipa.groups), wanted[..i], wanted[i]);
      }
      var name := EnsureGroup(ipa, wanted[i], u);
      SafeTransitive(old(ipa.View()), before, ipa.View(), u);
      if name.None? {
        return None;
      }
      found := found + {name.value};
    }
    assert wanted[..|wanted|] == wanted;
    names := Some(found);
  }

  /** Put the user in every group they should be in. Succeeds unless a write fails. */
  method SyncGroups(ipa: FreeIPA, site: Site, u: User, peer: Peer) returns (ok: bool)
    requires Tidy(site, ipa.View()) && Valid(u.project) && Valid(OpGroup(peer))
    modifies ipa
    ensures Safe(old(ipa.View()), ipa.View(), u) && ipa.failures >= old(ipa.failures)
    ensures old(u in ipa.users && ipa.users[u].enabled && ipa.users[u].Managed()) && ipa.failures == old(ipa.failures)
            && AllFindable(old(ipa.groups), Wanted(site, u, peer)) ==>
              ok && ipa.View() == Synced(site, old(ipa.View()), u, peer)
  {
    var wanted := Wanted(site, u, peer);
    WantedIsValid(site, u, peer, ipa.View());
    hide GroupName, LegacyName, Describe, NameFor, Ensured, EnsuredAll, NamesFor, Wanted, Valid, Findable, Lookup;
    var found := EnsureGroups(ipa, wanted, u);
    if found.None? {
      return false;
    }
    var names := found.value;
    if u !in ipa.users || !ipa.users[u].enabled || !ipa.users[u].Managed() {
      return false;
    }
    assert ipa.users[u].memberOf + (names - ipa.users[u].memberOf) == ipa.users[u].memberOf + names;
    ghost var before := ipa.View();
    ok := JoinGroups(ipa, u, names - ipa.users[u].memberOf);
    SafeTransitive(old(ipa.View()), before, ipa.View(), u);
  }

  function Joined(users: map<User, Account>, u: User, names: set<string>): map<User, Account>
    requires u in users
  {
    users[u := users[u].(memberOf := users[u].memberOf + names)]
  }

  lemma JoinedOneMore(users: map<User, Account>, u: User, names: set<string>, name: string)
    requires u in users
    ensures Joined(Joined(users, u, names), u, {name}) == Joined(users, u, names + {name})
  {
    assert users[u].memberOf + names + {name} == users[u].memberOf + (names + {name});
  }

  method JoinGroups(ipa: FreeIPA, u: User, names: set<string>) returns (ok: bool)
    requires u in ipa.users && forall n | n in names :: n in ipa.groups
    modifies ipa
    ensures Safe(old(ipa.View()), ipa.View(), u) && ipa.failures >= old(ipa.failures)
    ensures ipa.failures == old(ipa.failures) ==>
              ok && ipa.View() == old(Dir(ipa.groups, Joined(ipa.users, u, names)))
  {
    var missing := names;
    ghost var joined: set<string> := {};
    assert Joined(ipa.users, u, {}) == ipa.users by {
      assert ipa.users[u].memberOf + {} == ipa.users[u].memberOf;
    }
    while missing != {}
      invariant joined + missing == names && ipa.failures >= old(ipa.failures)
      invariant ipa.groups == old(ipa.groups) && u in ipa.users
      invariant Safe(old(ipa.View()), ipa.View(), u)
      invariant ipa.failures == old(ipa.failures) ==> ipa.users == Joined(old(ipa.users), u, joined)
      decreases missing
    {
      var name :| name in missing;
      missing := missing - {name};
      ghost var before := ipa.View();
      var r := Try(ipa, AddMember(name, u), u);
      SafeTransitive(old(ipa.View()), before, ipa.View(), u);
      JoinedOneMore(old(ipa.users), u, joined, name);
      joined := joined + {name};
      if r != Done {
        return false;
      }
    }
    assert joined == names;
    ok := true;
  }

  /** Re-enable an account that is not blocked. */
  method ReenableUser(ipa: FreeIPA, u: User) returns (ok: bool)
    requires u in ipa.users && !ipa.users[u].Blocked()
    modifies ipa
    ensures Safe(old(ipa.View()), ipa.View(), u) && ipa.failures >= old(ipa.failures)
    ensures ok || ipa.failures > old(ipa.failures)
    ensures ipa.groups == old(ipa.groups) && u in ipa.users && ipa.users[u].memberOf == old(ipa.users[u].memberOf)
    ensures ok ==> ipa.View() == old(ipa.View()).(users := old(ipa.users)[u := old(ipa.users)[u].(enabled := true)])
  {
    var r := Try(ipa, Enable(u), u);
    ok := r == Done;
  }

  /** One listing of the groups the user is in, which may go unanswered. */
  method GetGroupsForUser(ipa: FreeIPA, site: Site, u: User) returns (seen: map<string, Identifier>, answered: bool)
    requires u in ipa.users
    ensures seen == Seen(site, ipa.groups, u, ipa.users[u].memberOf, answered)
  {
    answered := *;
    seen := Seen(site, ipa.groups, u, ipa.users[u].memberOf, answered);
  }

  method AddUserProcedure(ipa: FreeIPA, site: Site, u: User, peer: Peer) returns (ok: bool)
    requires Tidy(site, ipa.View()) && Valid(u.project) && Valid(OpGroup(peer))
    modifies ipa
    ensures Safe(old(ipa.View()), ipa.View(), u) && ipa.failures >= old(ipa.failures)
    ensures ipa.failures == old(ipa.failures) && AllFindable(old(ipa.groups), Wanted(site, u, peer)) ==>
              ok && ipa.View() == AddSpec(site, old(ipa.View()), u, peer)
  {
    if u in ipa.users {
      if !ipa.users[u].Managed() || ipa.users[u].Blocked() {
        return true;
      }
      var usable := ipa.users[u].enabled;
      if !usable {
        usable := ReenableUser(ipa, u);
      } else {
        assert ipa.users[u].(enabled := true) == ipa.users[u];
      }
      if usable {
        ghost var before := ipa.View();
        var synced := SyncGroups(ipa, site, u, peer);
        SafeTransitive(old(ipa.View()), before, ipa.View(), u);
        if synced {
          return true;
        }
      }
      // something went wrong: fall through and try to add the user from scratch
    }
    ghost var before := ipa.View();
    ok := AddFromScratch(ipa, site, u, peer);
    SafeTransitive(old(ipa.View()), before, ipa.View(), u);
  }

  method AddFromScratch(ipa: FreeIPA, site: Site, u: User, peer: Peer) returns (ok: bool)
    requires Tidy(site, ipa.View()) && Valid(u.project) && Valid(OpGroup(peer))
    modifies ipa
    ensures Safe(old(ipa.View()), ipa.View(), u) && ipa.failures >= old(ipa.failures)
    ensures old(u !in ipa.users) && ipa.failures == old(ipa.failures)
            && AllFindable(old(ipa.groups), Wanted(site, u, peer)) ==>
              ok && ipa.View() == AddSpec(site, old(ipa.View()), u, peer)
  {
    hide GroupName, LegacyName, Describe, NameFor, Ensured, Wanted, Valid;
    var r := Try(ipa, AddUser(u), u);
    if r == Duplicate {
      if ipa.users[u].Blocked() {
        return true;
      }
      if !ipa.users[u].enabled {
        if !ipa.users[u].Managed() {
          return false;
        }
        ghost var before := ipa.View();
        var enabled := ReenableUser(ipa, u);
        SafeTransitive(old(ipa.View()), before, ipa.View(), u);
        if !enabled {
          return false;
        }
      }
    } else if u !in ipa.users {
      return false;
    }
    ghost var before := ipa.View();
    ok := AddToGroups(ipa, site, u, peer);
    SafeTransitive(old(ipa.View()), before, ipa.View(), u);
  }

  /** Put the user in the managed group; no answer if the group could not be ensured. */
  method JoinManaged(ipa: FreeIPA, u: User) returns (r: Option<Reply>)
    requires u in ipa.users
    modifies ipa
    ensures Safe(old(ipa.View()), ipa.View(), u) && ipa.failures >= old(ipa.failures) && u in ipa.users
    ensures ipa.failures == old(ipa.failures) ==>
              && r == Some(Done) && ipa.groups == Ensured(old(ipa.groups), MANAGED)
              && ipa.users == Joined(old(ipa.users), u, {GroupName(MANAGED)})
  {
    ManagedFacts(old(ipa.groups));
    hide GroupName, LegacyName, Describe, NameFor, Ensured, Valid, Findable, Lookup;
    var name := EnsureGroup(ipa, MANAGED, u);
    if name.None? {
      return None;
    }
    ghost var ensured := ipa.View();
    var reply := Try(ipa, AddMember(name.value, u), u);
    SafeTransitive(old(ipa.View()), ensured, ipa.View(), u);
    r := Some(reply);
  }

  lemma ManagedFacts(groups: map<string, string>)
    ensures Valid(MANAGED) && Findable(groups, MANAGED) && NameFor(groups, MANAGED) == GroupName(MANAGED)
  {}

  /** Make the user managed, then put them in all of their groups. */
  method AddToGroups(ipa: FreeIPA, site: Site, u: User, peer: Peer) returns (ok: bool)
    requires Tidy(site, ipa.View()) && Valid(u.project) && Valid(OpGroup(peer)) && u in ipa.users
    modifies ipa
    ensures Safe(old(ipa.View()), ipa.View(), u) && ipa.failures >= old(ipa.failures)
    ensures old(ipa.users[u] == Account({}, true)) && ipa.failures == old(ipa.failures)
            && AllFindable(old(ipa.groups), Wanted(site, u, peer)) ==>
              ok && ipa.View() == Synced(site, Dir(Ensured(old(ipa.groups), MANAGED),
                                                   old(ipa.users)[u := Account({GroupName(MANAGED)}, true)]), u, peer)
  {
    ManagedFacts(ipa.groups);
    hide GroupName, LegacyName, Describe, NameFor, Ensured, Valid, Findable, Lookup;
    ghost var start := ipa.View();
    var joined := JoinManaged(ipa, u);
    ghost var middle := ipa.View();
    if joined.None? {
      return false;
    }
    if joined.value != Done {
      // do not leave an unmanaged account behind, unless another instance needs it
      var seen, answered := GetGroupsForUser(ipa, site, u);
      if answered && !exists n | n in seen :: seen[n].portal == "instance" {
        var _ := Try(ipa, Disable(u), u);
        SafeTransitive(start, middle, ipa.View(), u);
      }
      return false;
    }
    if AllFindable(start.groups, Wanted(site, u, peer)) {
      AllStayFindable(start.groups, MANAGED, Wanted(site, u, peer));
    }
    if start.users[u] == Account({}, true) && ipa.failures == old(ipa.failures) {
      var none: set<string> := {};
      assert none + {GroupName(MANAGED)} == {GroupName(MANAGED)};
    }
    ok := SyncGroups(ipa, site, u, peer);
    SafeTransitive(start, middle, ipa.View(), u);
  }

  lemma AllStayFindable(groups: map<string, string>, id: Identifier, ids: seq<Identifier>)
    requires AllFindable(groups, ids) && Valid(id)
    ensures AllFindable(Ensured(groups, id), ids)
  {
    hide Findable, Ensured;
    forall other | other in ids ensures Findable(Ensured(groups, id), other) {
      EnsuredKeepsFindable(groups, id, other);
    }
  }

  method RemoveUserProcedure(ipa: FreeIPA, site: Site, u: User, peer: Peer)
      returns (ok: bool, first: bool, second: bool)
    requires Tidy(site, ipa.View()) && Valid(u.project) && Valid(OpGroup(peer))
    modifies ipa
    ensures Safe(old(ipa.View()), ipa.View(), u) && ipa.failures >= old(ipa.failures)
    ensures ipa.failures == old(ipa.failures) ==>
              && ipa.View() == RemoveSpec(site, old(ipa.View()), u, peer, first, second)
              && (ok <==> old(u in ipa.users && ipa.users[u].Managed()))
  {
    first, second := true, true;
    if u !in ipa.users || !ipa.users[u].Managed() {
      return false, first, second;
    }
    if !ipa.users[u].enabled && !ipa.users[u].Blocked() {
      return true, first, second;
    }
    var seen;
    if GroupName(OpGroup(peer)) !in ipa.users[u].memberOf {
      seen, first := GetGroupsForUser(ipa, site, u);
      if OnOther(seen, peer) {
        return true, first, second;
      }
    }
    ok, second := RemoveFromInstance(ipa, site, u, peer);
  }

  method RemoveFromInstance(ipa: FreeIPA, site: Site, u: User, peer: Peer) returns (ok: bool, second: bool)
    requires Tidy(site, ipa.View()) && Valid(u.project) && Valid(OpGroup(peer)) && u in ipa.users
    modifies ipa
    ensures Safe(old(ipa.View()), ipa.View(), u) && ipa.failures >= old(ipa.failures)
    ensures ipa.failures == old(ipa.failures) ==> ok && ipa.View() == RemoveNow(site, old(ipa.View()), u, peer, second)
  {
    WantedIsValid(site, u, peer, ipa.View());
    forall id | id in InstanceGroups(site, peer) ensures GroupName(id) != BLOCKED_NAME {
      NeverNamedBlocked(id);
    }
    LeaveGroups(ipa, u, NameSet(InstanceGroups(site, peer)));
    var seen;
    seen, second := GetGroupsForUser(ipa, site, u);
    if OnOther(seen, peer) {
      return true, second;
    }
    assert BLOCKED_NAME !in ToLeave(seen) by {
      BlockedIsNeverSeen(site.internal, ipa.groups, u.project.portal);
    }
    ghost var before := ipa.View();
    ok := LeaveForGood(ipa, u, ToLeave(seen));
    SafeTransitive(old(ipa.View()), before, ipa.View(), u);
  }

  function Left(users: map<User, Account>, u: User, names: set<string>): map<User, Account>
    requires u in users
  {
    users[u := users[u].(memberOf := users[u].memberOf - names)]
  }

  lemma LeftOneMore(users: map<User, Account>, u: User, names: set<string>, name: string)
    requires u in users
    ensures Left(Left(users, u, names), u, {name}) == Left(users, u, names + {name})
  {
    assert users[u].memberOf - names - {name} == users[u].memberOf - (names + {name});
  }

  lemma LeftNone(users: map<User, Account>, u: User)
    requires u in users
    ensures Left(users, u, {}) == users
  {
    assert users[u].memberOf - {} == users[u].memberOf;
  }

  /** Take the user out of one group; a group that is not there counts as left. */
  method LeaveGroup(ipa: FreeIPA, u: User, name: string)
    requires u in ipa.users && name != BLOCKED_NAME
    modifies ipa
    ensures Safe(old(ipa.View()), ipa.View(), u) && ipa.failures >= old(ipa.failures) && ipa.groups == old(ipa.groups)
    ensures u in ipa.users && ipa.users[u].enabled == old(ipa.users[u].enabled)
    ensures ipa.failures == old(ipa.failures) ==>
              ipa.users == if name in ipa.groups then Left(old(ipa.users), u, {name}) else old(ipa.users)
  {
    var _ := Try(ipa, RemoveMember(name, u), u);
  }

  method LeaveGroups(ipa: FreeIPA, u: User, names: set<string>)
    requires u in ipa.users && BLOCKED_NAME !in names
    modifies ipa
    ensures Safe(old(ipa.View()), ipa.View(), u) && ipa.failures >= old(ipa.failures) && ipa.groups == old(ipa.groups)
    ensures u in ipa.users && ipa.users[u].enabled == old(ipa.users[u].enabled)
    ensures ipa.failures == old(ipa.failures) ==> ipa.users == Left(old(ipa.users), u, names * ipa.groups.Keys)
  {
    var rest := names;
    ghost var gone: set<string> := {};
    LeftNone(ipa.users, u);
    while rest != {}
      invariant Safe(old(ipa.View()), ipa.View(), u) && ipa.failures >= old(ipa.failures)
                && ipa.groups == old(ipa.groups)
      invariant u in ipa.users && ipa.users[u].enabled == old(ipa.users[u].enabled)
      invariant rest <= names && gone == (names - rest) * ipa.groups.Keys
      invariant ipa.failures == old(ipa.failures) ==> ipa.users == Left(old(ipa.users), u, gone)
      decreases rest
    {
      var name :| name in rest;
      rest := rest - {name};
      ghost var before := ipa.View();
      LeaveGroup(ipa, u, name);
      SafeTransitive(old(ipa.View()), before, ipa.View(), u);
      LeftOneMore(old(ipa.users), u, gone, name);
      gone := if name in ipa.groups then gone + {name} else gone;
    }
    assert gone == names * ipa.groups.Keys;
  }

  /** Leave the remaining groups and be disabled. */
  method LeaveForGood(ipa: FreeIPA, u: User, names: set<string>) returns (ok: bool)
    requires u in ipa.users && BLOCKED_NAME !in names
    modifies ipa
    ensures Safe(old(ipa.View()), ipa.View(), u) && ipa.failures >= old(ipa.failures) && ipa.groups == old(ipa.groups)
    ensures ipa.failures == old(ipa.failures) ==>
              && ok
              && ipa.users == old(ipa.users)[u := Account(old(ipa.users[u].memberOf) - (names * ipa.groups.Keys),
                                                          false)]
  {
    LeaveGroups(ipa, u, names);
    ghost var before := ipa.View();
    var r := Try(ipa, Disable(u), u);
    SafeTransitive(old(ipa.View()), before, ipa.View(), u);
    ok := r != Failed;
  }

  method BlockUserProcedure(ipa: FreeIPA, u: User) returns (ok: bool)
    modifies ipa
    ensures Safe(old(ipa.View()), ipa.View(), u) && ipa.failures >= old(ipa.failures)
    ensures ipa.failures == old(ipa.failures) ==>
              && ipa.View() == BlockSpec(old(ipa.View()), u)
              && (ok <==> old(u in ipa.users && ipa.users[u].Managed()))
    ensures ok && old(u in ipa.users && !ipa.users[u].Blocked()) ==>
              u in ipa.users && ipa.users[u].Blocked() && !ipa.users[u].enabled
  {
    if u !in ipa.users || !ipa.users[u].Managed() {
      return false;
    }
    if ipa.users[u].Blocked() {
      return true;
    }
    var r := Try(ipa, AddGroup(BLOCKED_NAME, BLOCKED_DESCRIPTION), u);
    if r == Failed {
      return false;
    }
    ghost var before := ipa.View();
    ok := BlockAndDisable(ipa, u);
    SafeTransitive(old(ipa.View()), before, ipa.View(), u);
  }

  method BlockAndDisable(ipa: FreeIPA, u: User) returns (ok: bool)
    requires u in ipa.users && BLOCKED_NAME in ipa.groups
    modifies ipa
    ensures Safe(old(ipa.View()), ipa.View(), u) && ipa.failures >= old(ipa.failures)
    ensures ipa.failures == old(ipa.failures) ==>
              && ok
              && ipa.View() == old(Dir(ipa.groups,
                                       ipa.users[u := Account(ipa.users[u].memberOf + {BLOCKED_NAME}, false)]))
    ensures ok ==> u in ipa.users && ipa.users[u].Blocked() && !ipa.users[u].enabled
  {
    var r := Try(ipa, AddMember(BLOCKED_NAME, u), u);
    if r != Done {
      return false;
    }
    ghost var before := ipa.View();
    r := Try(ipa, Disable(u), u);
    SafeTransitive(old(ipa.View()), before, ipa.View(), u);
    ok := r != Failed;
  }

  method UnblockUserProcedure(ipa: FreeIPA, u: User) returns (ok: bool)
    modifies ipa
    ensures OnlyTouches(old(ipa.View()), ipa.View(), u) && ipa.groups == old(ipa.groups)
    ensures ipa.failures >= old(ipa.failures)
    ensures ipa.failures == old(ipa.failures) ==>
              && ipa.View() == UnblockSpec(old(ipa.View()), u)
              && (ok <==> old(u in ipa.users && ipa.users[u].Managed()
                              && (ipa.users[u].Blocked() ==> BLOCKED_NAME in ipa.groups)))
  {
    if u !in ipa.users || !ipa.users[u].Managed() {
      return false;
    }
    if !ipa.users[u].Blocked() {
      return true;
    }
    var r := ipa.CallWrite(RemoveMember(BLOCKED_NAME, u));
    if r != Done {
      return false;
    }
    ok := ReenableUser(ipa, u);
  }
}
