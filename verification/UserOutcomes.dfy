/**
  What adding, removing, blocking and unblocking a user comes to, group by group: which groups
  they are in afterwards, which they have left and which they keep.
 */
module UserOutcomes {
  import opened Directory
  import GroupAdd
  import opened Identifiers
  import opened Names
  import opened UserLifecycle
  import opened UserRuns
  import opened Wrappers

  /** A group of the instance: its own, or one configured for it. */
  ghost predicate OfInstance(site: Site, peer: Peer, id: Identifier) {
    id == OpGroup(peer) || (peer in site.instances && id in site.instances[peer])
  }

  /** A group that a user of the instance is to be in. */
  ghost predicate Due(site: Site, u: User, peer: Peer, id: Identifier) {
    id in site.system || OfInstance(site, peer, id) || id == MANAGED || id == u.project
  }

  /** The user is in the group, under the name that it is found by. */
  ghost predicate IsIn(d: Dir, u: User, id: Identifier) {
    u in d.users && Lookup(d.groups, id).Some? && Lookup(d.groups, id).value in d.users[u].memberOf
  }

  /** The group is found exactly if a master with these groups is seen to have it when groups are added. */
  lemma LookupIsHolds(groups: map<string, string>, id: Identifier)
    ensures Lookup(groups, id).Some? <==>
            GroupAdd.Holds(set name | name in groups :: GroupAdd.Entry(name, groups[name]), id)
  {
    hide DescribedIdentifier;
    var entries := set name | name in groups :: GroupAdd.Entry(name, groups[name]);
    assert forall name | name in groups :: GroupAdd.Entry(name, groups[name]) in entries;
    if Lookup(groups, id).Some? {
      var name := Lookup(groups, id).value;
      assert GroupAdd.Recognised(GroupAdd.Entry(name, groups[name]), id);
    }
  }

  // ---- Adding ----

  /** A group that is found is found under the same name after another one is ensured. */
  lemma LookupStays(groups: map<string, string>, id: Identifier, other: Identifier)
    requires Valid(id) && Valid(other) && Lookup(groups, id).Some?
    ensures Lookup(Ensured(groups, other), id) == Lookup(groups, id)
  {
    NamesClashIff(id, other);
  }

  lemma {:induction false} EnsuredAllAreFound(groups: map<string, string>, ids: seq<Identifier>)
    requires AllFindable(groups, ids) && forall id | id in ids :: Valid(id)
    ensures forall id | id in ids ::
              var r := Lookup(EnsuredAll(groups, ids), id); r.Some? && r.value in NamesFor(groups, ids)
    ensures forall name | name in NamesFor(groups, ids) ::
              exists id :: id in ids && Lookup(EnsuredAll(groups, ids), id) == Some(name)
  {
    if ids == [] {
    } else {
      var front, last := ids[..|ids| - 1], ids[|ids| - 1];
      var before, after := EnsuredAll(groups, front), EnsuredAll(groups, ids);
      assert ids == front + [last];
      EnsuredAllAreFound(groups, front);
      EnsuredAllKeepsFindable(groups, front, last);
      EnsuredIsFound(before, last);
      forall id | id in front ensures Lookup(after, id) == Lookup(before, id) {
        LookupStays(before, id, last);
      }
      hide Lookup, NameFor, Ensured, Valid, AllFindable, Findable;
      forall name | name in NamesFor(groups, ids) ensures exists id :: id in ids && Lookup(after, id) == Some(name) {
        if name in NamesFor(groups, front) {
          var id :| id in front && Lookup(before, id) == Some(name);
          assert id in ids && Lookup(after, id) == Some(name);
        } else {
          assert last in ids;
        }
      }
    }
  }

  /** Groups are only added, for those that were asked for, and with their identifiers. */
  lemma {:induction false} EnsuredAllAdds(groups: map<string, string>, ids: seq<Identifier>)
    ensures forall name | name in groups ::
              name in EnsuredAll(groups, ids) && EnsuredAll(groups, ids)[name] == groups[name]
    ensures forall name | name in EnsuredAll(groups, ids) && name !in groups ::
              exists id :: id in ids && name == GroupName(id) && EnsuredAll(groups, ids)[name] == Describe(id, WORDS)
  {
    if ids == [] {
    } else {
      var front, last := ids[..|ids| - 1], ids[|ids| - 1];
      assert ids == front + [last];
      EnsuredAllAdds(groups, front);
      hide GroupName, LegacyName, Describe;
      var before, after := EnsuredAll(groups, front), EnsuredAll(groups, ids);
      forall name | name in after && name !in groups
        ensures exists id :: id in ids && name == GroupName(id) && after[name] == Describe(id, WORDS)
      {
        if name in before {
          var id :| id in front && name == GroupName(id) && before[name] == Describe(id, WORDS);
          assert id in ids && after[name] == Describe(id, WORDS);
        } else {
          assert last in ids;
        }
      }
    }
  }

  lemma WantedIsDue(site: Site, u: User, peer: Peer)
    ensures forall id | id in Wanted(site, u, peer) :: Due(site, u, peer, id)
    ensures forall id | Due(site, u, peer, id) && id != OpGroup(peer) :: id in Wanted(site, u, peer)
    ensures exists id :: id in Wanted(site, u, peer) && OfInstance(site, peer, id)
                         && GroupName(id) == GroupName(OpGroup(peer))
  {
    hide GroupName, OpGroup;
    var groups := InstanceGroups(site, peer);
    assert forall id | id in groups :: id in Wanted(site, u, peer);
    var configured := if peer in site.instances then site.instances[peer] else [];
    if g :| g in configured && GroupName(g) == GroupName(OpGroup(peer)) {
      assert groups == configured && g in Wanted(site, u, peer);
    } else {
      assert groups == configured + [OpGroup(peer)];
      assert OpGroup(peer) in groups;
    }
  }

  /** Two valid groups of one name are found under that name, or neither is. */
  lemma SameNameSameLookup(groups: map<string, string>, id: Identifier, other: Identifier)
    requires Valid(id) && Valid(other) && GroupName(id) == GroupName(other)
    ensures Lookup(groups, id) == Lookup(groups, other)
  {
    NamesClashIff(id, other);
  }

  lemma DueIsValid(site: Site, u: User, peer: Peer, groups: map<string, string>)
    requires forall id | id in site.system :: Valid(id)
    requires forall p | p in site.instances :: forall id | id in site.instances[p] :: Valid(id)
    requires Valid(u.project) && Valid(OpGroup(peer)) && Readable(groups)
    ensures forall id | Due(site, u, peer, id) :: Valid(id)
    ensures AllFindable(groups, Wanted(site, u, peer)) && forall id | id in Wanted(site, u, peer) :: Valid(id)
  {
    ManagedFacts(groups);
    WantedIsDue(site, u, peer);
    hide Valid, OpGroup, Wanted, GroupName;
    ReadableIsFindable(groups, Wanted(site, u, peer));
  }

  lemma DueAreFound(site: Site, groups: map<string, string>, u: User, peer: Peer)
    requires AllFindable(groups, Wanted(site, u, peer))
    requires forall id | Due(site, u, peer, id) :: Valid(id)
    ensures var ids := Wanted(site, u, peer);
            && (forall id | Due(site, u, peer, id) ::
                  var r := Lookup(EnsuredAll(groups, ids), id); r.Some? && r.value in NamesFor(groups, ids))
            && (forall name | name in NamesFor(groups, ids) ::
                  exists id :: Due(site, u, peer, id) && Lookup(EnsuredAll(groups, ids), id) == Some(name))
  {
    var ids := Wanted(site, u, peer);
    WantedIsDue(site, u, peer);
    EnsuredAllAreFound(groups, ids);
    var own :| own in ids && OfInstance(site, peer, own) && GroupName(own) == GroupName(OpGroup(peer));
    assert Due(site, u, peer, OpGroup(peer));
    hide Valid, OpGroup, Wanted, GroupName, Lookup, EnsuredAll, NamesFor, Due, OfInstance, AllFindable;
    SameNameSameLookup(EnsuredAll(groups, ids), OpGroup(peer), own);
  }

  /**
    After a sync the user is in every group they are to be in: those of the system, those of
    the instance, the managed group and the group of their project. They lose no membership,
    and gain none but of those groups.
   */
  lemma SyncOutcome(site: Site, d: Dir, u: User, peer: Peer)
    requires Tidy(site, d) && Valid(u.project) && Valid(OpGroup(peer)) && Readable(d.groups) && u in d.users
    ensures var d' := Synced(site, d, u, peer);
            && OnlyTouches(d, d', u) && u in d'.users && d'.users[u].enabled == d.users[u].enabled
            && (forall id | Due(site, u, peer, id) :: IsIn(d', u, id))
            && (forall name | name in d.users[u].memberOf :: name in d'.users[u].memberOf)
            && (forall name | name in d'.users[u].memberOf && name !in d.users[u].memberOf ::
                  exists id :: Due(site, u, peer, id) && Lookup(d'.groups, id) == Some(name))
  {
    var ids, d' := Wanted(site, u, peer), Synced(site, d, u, peer);
    DueIsValid(site, u, peer, d.groups);
    hide Tidy, Valid, OpGroup, Wanted, GroupName, Lookup, EnsuredAll, NamesFor, Due, AllFindable, Readable;
    DueAreFound(site, d.groups, u, peer);
  }

  /** Groups that exist stay as they are, and others are only added for a purpose. */
  lemma SyncAddsGroups(site: Site, d: Dir, u: User, peer: Peer)
    requires u in d.users
    ensures var groups := Synced(site, d, u, peer).groups;
            && (forall name | name in d.groups :: name in groups && groups[name] == d.groups[name])
            && (forall name | name in groups && name !in d.groups ::
                  exists id :: Due(site, u, peer, id) && name == GroupName(id) && groups[name] == Describe(id, WORDS))
  {
    WantedIsDue(site, u, peer);
    hide OpGroup, Wanted, GroupName, EnsuredAll, NamesFor, Due, Describe;
    EnsuredAllAdds(d.groups, Wanted(site, u, peer));
  }

  /**
    Adding leaves a user who is not managed, or blocked, as they are. Anybody else, new or not,
    is enabled afterwards and in every group they are to be in, without losing a membership.
   */
  lemma AddOutcome(site: Site, d: Dir, u: User, peer: Peer)
    requires Tidy(site, d) && Valid(u.project) && Valid(OpGroup(peer)) && Readable(d.groups)
    ensures u in d.users && (!d.users[u].Managed() || d.users[u].Blocked()) ==> SpecOp(site, d, Add(u, peer)) == d
    ensures (u in d.users ==> d.users[u].Managed() && !d.users[u].Blocked()) ==>
              var d' := SpecOp(site, d, Add(u, peer));
              && OnlyTouches(d, d', u) && u in d'.users && d'.users[u].enabled
              && (forall id | Due(site, u, peer, id) :: IsIn(d', u, id))
              && (u in d.users ==> forall name | name in d.users[u].memberOf :: name in d'.users[u].memberOf)
              && (forall name | name in d'.users[u].memberOf && (u in d.users ==> name !in d.users[u].memberOf) ::
                    exists id :: Due(site, u, peer, id) && Lookup(d'.groups, id) == Some(name))
  {
    if u !in d.users {
      NewAddOutcome(site, d, u, peer);
    } else if d.users[u].Managed() && !d.users[u].Blocked() {
      var enabled := d.(users := d.users[u := d.users[u].(enabled := true)]);
      SyncOutcome(site, enabled, u, peer);
      hide Synced, Due, IsIn, Lookup, OpGroup, Valid;
    }
  }

  lemma NewAddOutcome(site: Site, d: Dir, u: User, peer: Peer)
    requires Tidy(site, d) && Valid(u.project) && Valid(OpGroup(peer)) && Readable(d.groups) && u !in d.users
    ensures var d' := AddSpec(site, d, u, peer);
            && OnlyTouches(d, d', u) && u in d'.users && d'.users[u].enabled
            && (forall id | Due(site, u, peer, id) :: IsIn(d', u, id))
            && (forall name | name in d'.users[u].memberOf ::
                  exists id :: Due(site, u, peer, id) && Lookup(d'.groups, id) == Some(name))
  {
    ManagedFacts(d.groups);
    NeverNamedBlocked(MANAGED);
    EnsuredAllKeepsReadable(d.groups, [MANAGED]);
    assert EnsuredAll(d.groups, [MANAGED]) == Ensured(d.groups, MANAGED);
    var made := Dir(Ensured(d.groups, MANAGED), d.users[u := Account({GroupName(MANAGED)}, true)]);
    assert Tidy(site, made);
    SyncOutcome(site, made, u, peer);
    var d' := Synced(site, made, u, peer);
    assert Due(site, u, peer, MANAGED) && IsIn(d', u, MANAGED);
    assert Lookup(d'.groups, MANAGED) == Some(GroupName(MANAGED));
    hide Synced, IsIn, Lookup, OpGroup, Valid, Ensured, Readable, Due, Tidy;
  }

  // ---- Removing ----

  /** A group that exists and is named like one of the instance. */
  ghost predicate InstanceName(site: Site, groups: map<string, string>, peer: Peer, name: string) {
    name in groups && exists id :: OfInstance(site, peer, id) && name == GroupName(id)
  }

  /** The group is seen to be of another instance. */
  ghost predicate OtherName(site: Site, d: Dir, u: User, peer: Peer, name: string) {
    exists id :: Identify(site.internal, d.groups, u.project.portal, name) == Some(id)
                 && id.portal == "instance" && id != OpGroup(peer)
  }

  /** The user is in a group of another instance that is not one of this instance as well. */
  ghost predicate StaysOn(site: Site, d: Dir, u: User, peer: Peer)
    requires u in d.users
  {
    exists name :: name in d.users[u].memberOf && !InstanceName(site, d.groups, peer, name)
                   && OtherName(site, d, u, peer, name)
  }

  /** The removal does something; `first` says whether the first listing was answered. */
  ghost predicate Removes(site: Site, d: Dir, u: User, peer: Peer, first: bool) {
    && u in d.users && d.users[u].Managed() && (d.users[u].enabled || d.users[u].Blocked())
    && (|| GroupName(OpGroup(peer)) in d.users[u].memberOf
        || !first
        || !exists name :: name in d.users[u].memberOf && OtherName(site, d, u, peer, name))
  }

  lemma NamesOfInstance(site: Site, groups: map<string, string>, peer: Peer, name: string)
    ensures name in NameSet(InstanceGroups(site, peer)) * groups.Keys <==> InstanceName(site, groups, peer, name)
  {
    hide GroupName, OpGroup;
    var configured := if peer in site.instances then site.instances[peer] else [];
    var ids := InstanceGroups(site, peer);
    if id :| OfInstance(site, peer, id) && name == GroupName(id) {
      if id in configured {
        assert id in ids;
      } else if g :| g in configured && GroupName(g) == GroupName(OpGroup(peer)) {
        assert g in ids && GroupName(g) == name;
      } else {
        assert ids == configured + [OpGroup(peer)] && id in ids;
      }
    }
    if id :| id in ids && name == GroupName(id) {
      assert OfInstance(site, peer, id);
    }
  }

  lemma OtherIsSeen(site: Site, d: Dir, u: User, peer: Peer, names: set<string>, answered: bool)
    ensures OnOther(Seen(site, d.groups, u, names, answered), peer) <==>
            answered && exists name :: name in names && OtherName(site, d, u, peer, name)
  {
    hide Identify, OpGroup;
    var seen := Seen(site, d.groups, u, names, answered);
    if name :| answered && name in names && OtherName(site, d, u, peer, name) {
      assert name in seen && seen[name].portal == "instance";
    }
    if name :| name in seen && seen[name].portal == "instance" && seen[name] != OpGroup(peer) {
      assert OtherName(site, d, u, peer, name);
    }
  }

  /** What is left of the groups for a user who is disabled: the managed group and what was not seen. */
  lemma NotSeenIsKept(site: Site, d: Dir, u: User, names: set<string>, answered: bool)
    requires names <= d.groups.Keys
    ensures forall name ::
              name in names - (ToLeave(Seen(site, d.groups, u, names, answered)) * d.groups.Keys) <==>
              name in names && (answered ==> IsKept(site, d, u, name))
  {
    hide Identify;
  }

  /** The agent does not see the group, or it is the managed group. */
  predicate IsKept(site: Site, d: Dir, u: User, name: string) {
    var id := Identify(site.internal, d.groups, u.project.portal, name);
    id.None? || id.value == MANAGED
  }

  /**
    A removal that does something takes the user out of every existing group of the instance.
    If they are seen to be on another one they keep all other groups and their account stays
    as it is; otherwise they are disabled, and keep the managed group and those groups only
    that the agent did not see.
   */
  lemma RemoveOutcome(site: Site, d: Dir, u: User, peer: Peer, first: bool, second: bool)
    requires u in d.users ==> d.users[u].memberOf <= d.groups.Keys
    ensures var d' := SpecOp(site, d, Remove(u, peer, first, second));
            if !Removes(site, d, u, peer, first) then d' == d
            else
              && d'.groups == d.groups && OnlyTouches(d, d', u) && u in d'.users
              && d'.users[u].enabled == (d.users[u].enabled && second && StaysOn(site, d, u, peer))
              && forall name :: name in d'.users[u].memberOf <==>
                   && name in d.users[u].memberOf && !InstanceName(site, d.groups, peer, name)
                   && (second && !StaysOn(site, d, u, peer) ==> IsKept(site, d, u, name))
  {
    if u in d.users {
      OtherIsSeen(site, d, u, peer, d.users[u].memberOf, first);
      if Removes(site, d, u, peer, first) {
        hide RemoveNow, OnOther, Seen, OtherName, StaysOn, IsKept, InstanceName, OpGroup;
        RemoveNowOutcome(site, d, u, peer, second);
        assert RemoveSpec(site, d, u, peer, first, second) == RemoveNow(site, d, u, peer, second);
      }
    }
  }

  /** What leaving the groups of the instance leaves. */
  function Rest(site: Site, d: Dir, u: User, peer: Peer): set<string>
    requires u in d.users
  {
    d.users[u].memberOf - (NameSet(InstanceGroups(site, peer)) * d.groups.Keys)
  }

  lemma RestIs(site: Site, d: Dir, u: User, peer: Peer)
    requires u in d.users
    ensures forall name ::
              name in Rest(site, d, u, peer) <==>
              name in d.users[u].memberOf && !InstanceName(site, d.groups, peer, name)
    ensures StaysOn(site, d, u, peer) <==>
            exists name :: name in Rest(site, d, u, peer) && OtherName(site, d, u, peer, name)
  {
    forall name ensures name in Rest(site, d, u, peer) <==>
                        name in d.users[u].memberOf && !InstanceName(site, d.groups, peer, name) {
      NamesOfInstance(site, d.groups, peer, name);
    }
    hide Rest, InstanceName, OtherName;
  }

  lemma RemoveNowShape(site: Site, d: Dir, u: User, peer: Peer, second: bool)
    requires u in d.users
    ensures var d', left := RemoveNow(site, d, u, peer, second), Rest(site, d, u, peer);
            var seen := Seen(site, d.groups, u, left, second);
            && d'.groups == d.groups && OnlyTouches(d, d', u) && u in d'.users
            && d'.users[u].enabled == (d.users[u].enabled && OnOther(seen, peer))
            && d'.users[u].memberOf == if OnOther(seen, peer) then left else left - (ToLeave(seen) * d.groups.Keys)
  {
    hide NameSet, InstanceGroups, OpGroup, Seen, OnOther, ToLeave;
  }

  lemma RemoveNowOutcome(site: Site, d: Dir, u: User, peer: Peer, second: bool)
    requires u in d.users && d.users[u].memberOf <= d.groups.Keys
    ensures var d' := RemoveNow(site, d, u, peer, second);
            && d'.groups == d.groups && OnlyTouches(d, d', u) && u in d'.users
            && d'.users[u].enabled == (d.users[u].enabled && second && StaysOn(site, d, u, peer))
            && forall name :: name in d'.users[u].memberOf <==>
                 && name in d.users[u].memberOf && !InstanceName(site, d.groups, peer, name)
                 && (second && !StaysOn(site, d, u, peer) ==> IsKept(site, d, u, name))
  {
    var left := Rest(site, d, u, peer);
    hide RemoveNow, Rest, InstanceName, OtherName, Seen, OnOther, ToLeave, IsKept, StaysOn, OnlyTouches;
    RemoveNowShape(site, d, u, peer, second);
    RestIs(site, d, u, peer);
    OtherIsSeen(site, d, u, peer, left, second);
    NotSeenIsKept(site, d, u, left, second);
  }

  // ---- Blocking and unblocking ----

  /**
    Blocking disables a managed user and adds the group of blocked users to theirs, which it
    makes if need be.
   */
  lemma BlockOutcome(site: Site, d: Dir, u: User)
    ensures var d' := SpecOp(site, d, Block(u));
            if u in d.users && d.users[u].Managed() && !d.users[u].Blocked() then
              && OnlyTouches(d, d', u) && u in d'.users && !d'.users[u].enabled && d'.users[u].Blocked()
              && (forall name | name != BLOCKED_NAME :: name in d'.users[u].memberOf <==> name in d.users[u].memberOf)
              && BLOCKED_NAME in d'.groups
              && (forall name | name in d.groups :: name in d'.groups && d'.groups[name] == d.groups[name])
              && (forall name | name in d'.groups && name !in d.groups :: name == BLOCKED_NAME)
            else d' == d
  {}

  /** Unblocking gives the user back as they were before they were blocked, but enabled. */
  lemma UnblockUndoesBlock(site: Site, d: Dir, u: User)
    requires u in d.users && d.users[u].Managed() && !d.users[u].Blocked()
    ensures var d' := SpecRun(site, d, [Block(u), Unblock(u)]);
            && d'.users == d.users[u := d.users[u].(enabled := true)]
            && d'.groups == SpecOp(site, d, Block(u)).groups
  {
    NeverNamedBlocked(MANAGED);
    assert (d.users[u].memberOf + {BLOCKED_NAME}) - {BLOCKED_NAME} == d.users[u].memberOf;
    assert [Block(u), Unblock(u)][..1] == [] + [Block(u)];
    RunOneMore(site, d, [], Block(u));
  }

  /** Unblocking changes nobody else, and nothing at all for a user who is not blocked or not managed. */
  lemma UnblockOutcome(site: Site, d: Dir, u: User)
    ensures var d' := SpecOp(site, d, Unblock(u));
            && OnlyTouches(d, d', u) && d'.groups == d.groups
            && (u in d.users && (!d.users[u].Managed() || !d.users[u].Blocked()) ==> d' == d)
  {}

  /** A run takes its operations one after another, first to last. */
  lemma RunOneMore(site: Site, d: Dir, ops: seq<Op>, op: Op)
    ensures SpecRun(site, d, []) == d
    ensures SpecRun(site, d, ops + [op]) == SpecOp(site, SpecRun(site, d, ops), op)
  {
    assert (ops + [op])[..|ops|] == ops;
  }

  // ---- Which instances share a group ----

  predicate IsPlain(c: char) {
    'a' <= c <= 'z' || 'A' <= c <= 'Z' || '0' <= c <= '9'
  }

  lemma {:induction false} SanitisedAt(s: string, k: nat)
    requires k < |s|
    ensures |Sanitised(s)| == |s| && Sanitised(s)[k] == if IsPlain(s[k]) then s[k] else '_'
  {
    if k == 0 {
      SanitisedHasNoDot(s);
    } else {
      SanitisedAt(s[1..], k - 1);
    }
  }

  /**
    Two instances have one group exactly if their names differ in characters alone that are
    neither letters nor digits.
   */
  lemma SharedOpGroupIff(p: Peer, q: Peer)
    ensures OpGroup(p) == OpGroup(q) <==>
            |p| == |q| && forall k | 0 <= k < |p| :: p[k] == q[k] || (!IsPlain(p[k]) && !IsPlain(q[k]))
  {
    var s, t := "op-" + p, "op-" + q;
    SanitisedHasNoDot(s);
    SanitisedHasNoDot(t);
    forall k | 0 <= k < |s| ensures Sanitised(s)[k] == if IsPlain(s[k]) then s[k] else '_' {
      SanitisedAt(s, k);
    }
    forall k | 0 <= k < |t| ensures Sanitised(t)[k] == if IsPlain(t[k]) then t[k] else '_' {
      SanitisedAt(t, k);
    }
    hide Sanitised;
    forall k | 0 <= k < |p| ensures s[k + 3] == p[k] {}
    forall k | 0 <= k < |q| ensures t[k + 3] == q[k] {}
    if Sanitised(s) == Sanitised(t) {
      forall k | 0 <= k < |p| ensures p[k] == q[k] || (!IsPlain(p[k]) && !IsPlain(q[k])) {
        assert Sanitised(s)[k + 3] == Sanitised(t)[k + 3];
      }
    } else if |p| == |q| {
      var k :| 0 <= k < |s| && Sanitised(s)[k] != Sanitised(t)[k];
      assert k >= 3 && s[k] == p[k - 3] && t[k] == q[k - 3];
    }
  }
}
