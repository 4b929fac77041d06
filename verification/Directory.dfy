/**
  The FreeIPA directory as the agent changes it: groups with their descriptions and accounts
  with their memberships. Reads are truthful. A write may fail, and a failed write may have
  taken effect all the same.
 */
module Directory {
  import opened Identifiers
  import opened Names
  import opened Text
  import opened Wrappers

  datatype Account = Account(memberOf: set<string>, enabled: bool) {
    predicate Managed() { GroupName(MANAGED) in memberOf }
    predicate Blocked() { BLOCKED_NAME in memberOf }
  }

  datatype Dir = Dir(groups: map<string, string>, users: map<User, Account>)

  datatype Write =
    | AddUser(user: User)
    | Enable(user: User)
    | Disable(user: User)
    | AddGroup(name: string, description: string)
    | AddMember(name: string, user: User)
    | RemoveMember(name: string, user: User)

  datatype Reply = Done | NotFound | Duplicate | Failed

  /** What a master that carries out the write answers. */
  function Answer(d: Dir, w: Write): Reply {
    match w
    case AddUser(u) => if u in d.users then Duplicate else Done
    case AddGroup(name, _) => if name in d.groups then Duplicate else Done
    case Enable(u) => if u in d.users then Done else NotFound
    case Disable(u) => if u in d.users then Done else NotFound
    case AddMember(name, u) => if u in d.users && name in d.groups then Done else NotFound
    case RemoveMember(name, u) => if u in d.users && name in d.groups then Done else NotFound
  }

  function Effect(d: Dir, w: Write): Dir {
    if Answer(d, w) != Done then d
    else
      match w
      case AddUser(u) => d.(users := d.users[u := Account({}, true)])
      case AddGroup(name, description) => d.(groups := d.groups[name := description])
      case Enable(u) => d.(users := d.users[u := d.users[u].(enabled := true)])
      case Disable(u) => d.(users := d.users[u := d.users[u].(enabled := false)])
      case AddMember(name, u) => d.(users := d.users[u := d.users[u].(memberOf := d.users[u].memberOf + {name})])
      case RemoveMember(name, u) => d.(users := d.users[u := d.users[u].(memberOf := d.users[u].memberOf - {name})])
  }

  class FreeIPA {
    var groups: map<string, string>
    var users: map<User, Account>
    var failures: nat   // writes that have failed so far

    ghost function View(): Dir
      reads this
    {
      Dir(groups, users)
    }

    method CallWrite(w: Write) returns (r: Reply)
      modifies this
      ensures || (failures == old(failures) && r == Answer(old(View()), w) && View() == Effect(old(View()), w))
              || (failures > old(failures) && r == Failed && View() in {old(View()), Effect(old(View()), w)})
    {
      var lost: bool, applied: bool := *, *;
      var d := Dir(groups, users);
      r := Answer(d, w);
      if lost {
        failures := failures + 1;
        r := Failed;
      }
      if !lost || applied {
        groups, users := Effect(d, w).groups, Effect(d, w).users;
      }
    }
  }

  // ---- Which groups an account is seen to be in ----

  /** A group that only ever got its legacy name is recognised by that name. */
  function LegacyIdentifier(name: string, portal: string): Option<Identifier> {
    match Find(name, '.')
    case None => None
    case Some(dot) =>
      var id := Identifier(name[dot + 1..], portal);
      if name[..dot] == "group" && Valid(id) then Some(id) else None
  }

  /**
    The identifier the agent gives to a group that a user is in, if it takes notice of it at
    all: from its description, from the internal groups it knows of, or from its legacy name.
   */
  function Identify(internal: map<string, Identifier>, groups: map<string, string>, portal: string, name: string)
    : Option<Identifier>
  {
    if name in groups && DescribedIdentifier(groups[name]).Some? then DescribedIdentifier(groups[name])
    else if name in internal then Some(internal[name])
    else if name == GroupName(MANAGED) then Some(MANAGED)
    else LegacyIdentifier(name, portal)
  }

  /** A project's group that only has its legacy name is taken for the project's, in the user's own portal. */
  lemma LegacyIsSeen(internal: map<string, Identifier>, groups: map<string, string>, id: Identifier)
    requires Valid(id) && id.portal !in INTERNAL_PORTALS
    requires var name := "group." + id.project;
             name !in internal && (name in groups ==> DescribedIdentifier(groups[name]).None?)
    ensures LegacyName(id) == Some("group." + id.project)
    ensures Identify(internal, groups, id.portal, "group." + id.project) == Some(id)
  {
    var name := "group." + id.project;
    assert name == "group" + ['.'] + id.project;
    FindAfter("group", '.', id.project);
    assert name[..|"group"|] == "group" && name[|"group"| + 1..] == id.project;
    ValidIsDotFree(MANAGED);
    assert name[|"group"|] == '.';
  }

  /** Every internal group the agent knows of has the name its identifier says. */
  ghost predicate WellNamed(internal: map<string, Identifier>) {
    forall name | name in internal :: Valid(internal[name]) && GroupName(internal[name]) == name
  }

  /** The group of blocked users, if it exists, is the one the agent made. */
  ghost predicate BlockedGroupOurs(groups: map<string, string>) {
    BLOCKED_NAME in groups ==> DescribedIdentifier(groups[BLOCKED_NAME]).None?
  }

  /** The group of blocked users is never among the groups a user is seen to be in. */
  lemma BlockedIsNeverSeen(internal: map<string, Identifier>, groups: map<string, string>, portal: string)
    requires WellNamed(internal) && BlockedGroupOurs(groups)
    ensures Identify(internal, groups, portal, BLOCKED_NAME) == None
  {
    if BLOCKED_NAME in internal {
      NeverNamedBlocked(internal[BLOCKED_NAME]);
    }
    NeverNamedBlocked(MANAGED);
    assert BLOCKED_NAME == "openportal" + ['.'] + "blocked";
    FindAfter("openportal", '.', "blocked");
    assert |BLOCKED_NAME[..|"openportal"|]| != |"group"|;
  }
}
