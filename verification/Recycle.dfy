/**
  Creating and recycling directories (`create_dir_native`, `clear_placeholder_dir_native`,
  `restore_from_recycle_native` and `recycle_dir_native` in filesystem.rs).

  One parent directory is modelled with its `.recycle` subdirectory. Symbolic links point to
  places outside it, by absolute path. Any system call may fail, and then has no effect.
 */
module Recycle {
  import opened Wrappers

  datatype Owner = Owner(uid: nat, gid: nat)

  datatype Node =
    | File(data: nat, owner: Owner)
    | Link(target: string)
    | Dir(entries: map<string, Node>, owner: Owner, mode: nat)

  /** What a link can lead to. */
  datatype Place = FilePlace | DirPlace(entries: map<string, Node>)

  datatype Tree = Tree(
    entries: map<string, Node>,             // of the parent directory, `.recycle` left out
    recycle: Option<map<string, Node>>,     // the entries of `.recycle`, if it is there
    elsewhere: map<string, Place>
  )

  const ROOT := Owner(0, 0)

  predicate Hidden(name: string) {
    name != [] && name[0] == '.'
  }

  /** A link exists only if what it points to does. */
  predicate Exists(t: Tree, n: Node) {
    n.Link? ==> n.target in t.elsewhere
  }

  predicate IsHere(t: Tree, name: string) {
    name in t.entries && Exists(t, t.entries[name])
  }

  predicate IsWaiting(t: Tree, name: string) {
    t.recycle.Some? && name in t.recycle.value && Exists(t, t.recycle.value[name])
  }

  function Bin(t: Tree): map<string, Node> {
    if t.recycle.Some? then t.recycle.value else map[]
  }

  /** Listing a directory follows links. */
  function Listing(t: Tree, n: Node): Option<map<string, Node>> {
    match n
    case File(_, _) => None
    case Link(target) =>
      if target in t.elsewhere && t.elsewhere[target].DirPlace? then Some(t.elsewhere[target].entries) else None
    case Dir(entries, _, _) => Some(entries)
  }

  /** Nothing but hidden regular files. */
  predicate IsPlaceholder(entries: map<string, Node>) {
    forall n | n in entries :: Hidden(n) && entries[n].File?
  }

  /** A directory that may be cleared away. */
  predicate ClearsAway(t: Tree, name: string) {
    name in t.entries && t.entries[name].Dir? && IsPlaceholder(t.entries[name].entries)
  }

  // ---- What the operations do when no system call fails ----

  datatype Outcome = Outcome(tree: Tree, ok: bool)

  function Owned(n: Node, owner: Owner): Node {
    match n
    case Dir(entries, _, mode) => Dir(entries, owner, mode)
    case _ => n
  }

  /**
    Moving the waiting copy back. A directory cannot take the place of a link, but anything
    else can. The ownership of a file can be found wrong but not put right.
   */
  function Restored(t: Tree, name: string, owner: Owner): Outcome
    requires IsWaiting(t, name)
  {
    var copy := t.recycle.value[name];
    if name in t.entries && copy.Dir? then Outcome(t, false)
    else
      Outcome(Tree(t.entries[name := Owned(copy, owner)], Some(t.recycle.value - {name}), t.elsewhere),
              copy.File? ==> copy.owner == owner)
  }

  function Created(t: Tree, name: string, owner: Owner, mode: nat): Outcome {
    if IsHere(t, name) then
      if !IsWaiting(t, name) then Outcome(t, true)
      else
        var n := t.entries[name];
        match Listing(t, n)
        case None => Outcome(t, false)
        case Some(list) =>
          if !IsPlaceholder(list) then Outcome(t, true)
          else if n.Link? then Outcome(t.(elsewhere := t.elsewhere[n.target := DirPlace(map[])]), false)
          else Restored(t.(entries := t.entries - {name}), name, owner)
    else if IsWaiting(t, name) then Restored(t, name, owner)
    else if name in t.entries then Outcome(t, false)
    else Outcome(t.(entries := t.entries[name := Dir(map[], owner, mode)]), true)
  }

  function Recycled(t: Tree, name: string): Outcome {
    if !IsHere(t, name) then Outcome(t, true)
    else
      var n := t.entries[name];
      var bin := Bin(t);
      var previous := if name in bin then Some(bin[name]) else None;
      var made := t.(recycle := Some(bin));
      if previous.Some? && (if Exists(t, previous.value) then previous.value.File? else n.Dir?)
      then Outcome(made, false)
      else Outcome(Tree(t.entries - {name}, Some(bin[name := n]), t.elsewhere), true)
  }

  // ---- Main results about successful calls ----

  /**
    Exactly when a waiting copy comes back: nothing is in its place, or a directory of hidden
    regular files, or a link that leads nowhere if the copy is not a directory. It comes back
    as it was, apart from the owner of a directory, and otherwise stays where it is.
   */
  lemma ComesBackIff(t: Tree, name: string, owner: Owner, mode: nat)
    requires IsWaiting(t, name)
    ensures var r, copy := Created(t, name, owner, mode).tree, t.recycle.value[name];
            && (name !in Bin(r) <==>
                 || name !in t.entries
                 || (t.entries[name].Dir? && forall n | n in t.entries[name].entries ::
                       n != [] && n[0] == '.' && t.entries[name].entries[n].File?)
                 || (!Exists(t, t.entries[name]) && !copy.Dir?))
            && (name !in Bin(r) ==>
                r == Tree(t.entries[name := Owned(copy, owner)], Some(Bin(t) - {name}), t.elsewhere))
            && (name in Bin(r) ==> r.entries == t.entries && r.recycle == t.recycle)
  {
    var without := t.(entries := t.entries - {name});
    assert without.entries[name := Owned(t.recycle.value[name], owner)] ==
           t.entries[name := Owned(t.recycle.value[name], owner)];
  }

  predicate IsContent(entries: map<string, Node>) {
    exists n | n in entries :: n == [] || n[0] != '.' || !entries[n].File?
  }

  /** A directory, or a link that leads to one, with anything but hidden regular files in it. */
  predicate HasContent(t: Tree, name: string) {
    && name in t.entries
    && match t.entries[name]
       case File(_, _) => false
       case Link(target) =>
         target in t.elsewhere && t.elsewhere[target].DirPlace? && IsContent(t.elsewhere[target].entries)
       case Dir(entries, _, _) => IsContent(entries)
  }

  /**
    What is reported created is there afterwards. Where nothing was it is an empty directory
    with the owner and the mode asked for, and what came back belongs to that owner too. Where a
    copy waits and does not come back, it is a success only if there is real content.
   */
  lemma CreatedIsThere(t: Tree, name: string, owner: Owner, mode: nat)
    ensures var r := Created(t, name, owner, mode);
            && (r.ok ==> IsHere(r.tree, name))
            && (!IsWaiting(t, name) ==>
                 && (r.ok <==> IsHere(t, name) || name !in t.entries)
                 && r.tree ==
                    if name in t.entries then t else t.(entries := t.entries[name := Dir(map[], owner, mode)]))
            && (r.ok && name in Bin(t) && name !in Bin(r.tree) ==>
                  var n := r.tree.entries[name]; n.Link? || n.owner == owner)
            && (IsWaiting(t, name) && name in Bin(r.tree) ==> (r.ok <==> HasContent(t, name)))
            && (IsWaiting(t, name) && HasContent(t, name) ==> r == Outcome(t, true))
  {}

  /**
    What is there is recycled, unless an older copy is in the way: one that is a file, or a link
    that leads nowhere where a directory is recycled. It then takes the place of any older copy.
   */
  lemma RecycledIff(t: Tree, name: string)
    ensures var r := Recycled(t, name);
            && (r.ok <==>
                 IsHere(t, name) && name in Bin(t) ==>
                   if Exists(t, Bin(t)[name]) then !Bin(t)[name].File? else !t.entries[name].Dir?)
            && (r.ok && IsHere(t, name) ==>
                 r.tree == Tree(t.entries - {name}, Some(Bin(t)[name := t.entries[name]]), t.elsewhere))
            && (!(r.ok && IsHere(t, name)) ==> r.tree.entries == t.entries && Bin(r.tree) == Bin(t)
                                               && r.tree.elsewhere == t.elsewhere)
            && (IsHere(t, name) ==> r.tree.recycle.Some?)
  {}

  // ---- Over whole runs ----

  datatype Request = Request(name: string, owner: Owner, mode: nat)

  /** What can happen in the directory while a copy waits. */
  datatype Op =
    | Create(request: Request)
    | Discard(name: string)              // recycle_dir
    | Put(name: string, node: Node)      // somebody else makes something where there is nothing
    | Take(name: string)                 // somebody else removes something

  function Run(t: Tree, ops: seq<Op>): Tree {
    if ops == [] then t
    else
      var u := Run(t, ops[..|ops| - 1]);
      match ops[|ops| - 1]
      case Create(r) => Created(u, r.name, r.owner, r.mode).tree
      case Discard(n) => Recycled(u, n).tree
      case Put(n, node) => if n in u.entries then u else u.(entries := u.entries[n := node])
      case Take(n) => u.(entries := u.entries - {n})
  }

  /**
    It does not recycle or remove anything under the name, and makes nothing there but, as an
    account agent does, a directory of hidden regular files.
   */
  predicate Spares(op: Op, name: string) {
    match op
    case Create(_) => true
    case Discard(n) => n != name
    case Put(n, node) => n != name || (node.Dir? && IsPlaceholder(node.entries))
    case Take(n) => n != name
  }

  predicate IsElsewhere(op: Op, name: string) {
    Spares(op, name) && (op.Create? ==> op.request.name != name)
  }

  /** The copy is waiting, and nothing keeps it from coming back. */
  ghost predicate Waits(t: Tree, name: string, copy: Node) {
    && IsWaiting(t, name) && t.recycle.value[name] == copy
    && (name in t.entries ==> ClearsAway(t, name))
  }

  lemma CreateKeepsWaiting(t: Tree, r: Request, name: string, copy: Node)
    requires Waits(t, name, copy) && r.name != name
    ensures Waits(Created(t, r.name, r.owner, r.mode).tree, name, copy)
  {}

  lemma DiscardKeepsWaiting(t: Tree, n: string, name: string, copy: Node)
    requires Waits(t, name, copy) && n != name
    ensures Waits(Recycled(t, n).tree, name, copy)
  {}

  lemma {:induction false} RunKeepsWaiting(t: Tree, ops: seq<Op>, name: string, copy: Node)
    requires Waits(t, name, copy) && forall op | op in ops :: IsElsewhere(op, name)
    ensures Waits(Run(t, ops), name, copy)
  {
    if ops == [] {
    } else {
      var before, op := ops[..|ops| - 1], ops[|ops| - 1];
      RunKeepsWaiting(t, before, name, copy);
      assert op in ops && IsElsewhere(op, name);
      hide Created, Recycled;
      if op.Create? {
        CreateKeepsWaiting(Run(t, before), op.request, name, copy);
      } else if op.Discard? {
        DiscardKeepsWaiting(Run(t, before), op.name, name, copy);
      }
    }
  }

  lemma RecycledWaits(t: Tree, name: string)
    requires IsHere(t, name) && Recycled(t, name).ok
    ensures Waits(Recycled(t, name).tree, name, t.entries[name])
  {}

  /**
    What is recycled comes back when it is created again, contents and all and with the owner
    put right if it is a directory, whatever is created, recycled, made or removed under other
    names in between, and even if directories of hidden regular files are put in its place.
   */
  lemma RecycledComesBack(t: Tree, name: string, ops: seq<Op>, owner: Owner, mode: nat)
    requires IsHere(t, name) && Recycled(t, name).ok && forall op | op in ops :: IsElsewhere(op, name)
    ensures var before := Run(Recycled(t, name).tree, ops);
            var r := Created(before, name, owner, mode);
            && r.tree == Tree(before.entries[name := Owned(t.entries[name], owner)],
                              Some(Bin(before) - {name}), before.elsewhere)
            && (r.ok <==> t.entries[name].File? ==> t.entries[name].owner == owner)
  {
    RecycledWaits(t, name);
    RunKeepsWaiting(Recycled(t, name).tree, ops, name, t.entries[name]);
    hide Recycled, Run;
    ComesBackIff(Run(Recycled(t, name).tree, ops), name, owner, mode);
  }

  /**
    A link that leads nowhere is not seen to be there. It is replaced exactly when what waits
    for its place is not a directory.
   */
  lemma DanglingLinkReplacedIff(t: Tree, name: string, owner: Owner, mode: nat)
    requires name in t.entries && !Exists(t, t.entries[name])
    ensures var r := Created(t, name, owner, mode);
            && (r.tree != t <==> IsWaiting(t, name) && !t.recycle.value[name].Dir?)
            && (r.tree == t ==> !r.ok)
  {
    if IsWaiting(t, name) && !t.recycle.value[name].Dir? {
      assert name !in Created(t, name, owner, mode).tree.recycle.value;
    }
  }

  /**
    Where a link leads to a directory of hidden regular files, those files are removed, but
    the link itself is not: the call fails, and so does every later one.
   */
  lemma LinkedPlaceholderBlocksRestore(t: Tree, name: string, owner: Owner, mode: nat)
    requires IsWaiting(t, name) && name in t.entries && t.entries[name].Link?
    requires t.entries[name].target in t.elsewhere && t.elsewhere[t.entries[name].target].DirPlace?
    requires forall n | n in t.elsewhere[t.entries[name].target].entries ::
               n != [] && n[0] == '.' && t.elsewhere[t.entries[name].target].entries[n].File?
    ensures var r := Created(t, name, owner, mode);
            && !r.ok && r.tree.entries == t.entries && r.tree.recycle == t.recycle
            && r.tree.elsewhere == t.elsewhere[t.entries[name].target := DirPlace(map[])]
            && Created(r.tree, name, owner, mode) == r
  {
    var r := Created(t, name, owner, mode);
    assert IsWaiting(r.tree, name) && IsHere(r.tree, name);
  }

  // ---- What no failure can break ----

  /** Anything but a directory of hidden regular files, or a link that is about to be replaced. */
  predicate IsReal(t: Tree, name: string) {
    && name in t.entries
    && var n := t.entries[name];
       match n
       case File(_, _) => true
       case Link(_) => Exists(t, n) || !IsWaiting(t, name) || t.recycle.value[name].Dir?
       case Dir(entries, _, _) => !IsPlaceholder(entries)
  }

  /** The same thing, perhaps with another owner. */
  predicate SameNode(a: Node, b: Node) {
    a == b || (a.Dir? && b.Dir? && a.entries == b.entries && a.mode == b.mode)
  }

  /** A place that is not a directory of hidden files alone is as it was. */
  predicate PlacesKept(t: Tree, t': Tree) {
    && t'.elsewhere.Keys == t.elsewhere.Keys
    && forall p | p in t.elsewhere ::
         if t.elsewhere[p].FilePlace? then t'.elsewhere[p].FilePlace?
         else t'.elsewhere[p].DirPlace? && (IsPlaceholder(t.elsewhere[p].entries) || t'.elsewhere[p] == t.elsewhere[p])
  }

  /** What creating `name` may do at worst, whichever of its system calls fail. */
  ghost predicate Careful(t: Tree, t': Tree, name: string) {
    && (forall n | n != name && n in t.entries :: n in t'.entries && t'.entries[n] == t.entries[n])
    && (forall n | n != name && n in t'.entries :: n in t.entries)
    && (IsReal(t, name) || (name in t.entries && !IsWaiting(t, name)) ==>
        name in t'.entries && t'.entries[name] == t.entries[name])
    && t'.recycle.Some? == t.recycle.Some?
    && (Bin(t') == Bin(t)
        || (IsWaiting(t, name) && Bin(t') == Bin(t) - {name} && name in t'.entries
            && SameNode(t'.entries[name], Bin(t)[name])))
    && (IsWaiting(t, name) && name in Bin(t') && name in t'.entries ==>
          name in t.entries && (t'.entries[name] == t.entries[name] || (ClearsAway(t, name) && ClearsAway(t', name))))
    && PlacesKept(t, t')
  }

  datatype Cleared = Kept | Removed | Stuck

  function Without(t: Tree, name: string): Tree {
    t.(entries := t.entries - {name})
  }

  /** The directory at `name`, wherever it is, without these files. */
  function Emptied(t: Tree, name: string, gone: set<string>): Tree
    requires name in t.entries && Listing(t, t.entries[name]).Some?
  {
    match t.entries[name]
    case Dir(es, owner, mode) => t.(entries := t.entries[name := Dir(es - gone, owner, mode)])
    case Link(target) => t.(elsewhere := t.elsewhere[target := DirPlace(t.elsewhere[target].entries - gone)])
  }

  /** Some of the hidden files of a placeholder are gone, and nothing else. */
  ghost predicate LeavesSome(t: Tree, t': Tree, name: string) {
    && name in t.entries && Listing(t, t.entries[name]).Some?
    && IsPlaceholder(Listing(t, t.entries[name]).value)
    && exists gone :: t' == Emptied(t, name, gone)
  }

  lemma EmptiedNone(t: Tree, name: string)
    requires name in t.entries && Listing(t, t.entries[name]).Some?
    ensures Emptied(t, name, {}) == t
  {
    var n := t.entries[name];
    if n.Dir? {
      assert n.entries - {} == n.entries;
    } else {
      assert t.elsewhere[n.target].entries - {} == t.elsewhere[n.target].entries;
    }
  }

  lemma EmptiedMore(t: Tree, name: string, gone: set<string>, file: string)
    requires name in t.entries && Listing(t, t.entries[name]).Some?
    ensures var e := Emptied(t, name, gone);
            && name in e.entries && Listing(e, e.entries[name]).Some?
            && Emptied(e, name, {file}) == Emptied(t, name, gone + {file})
  {
    var n := t.entries[name];
    if n.Dir? {
      assert n.entries - gone - {file} == n.entries - (gone + {file});
    } else {
      assert t.elsewhere[n.target].entries - gone - {file} == t.elsewhere[n.target].entries - (gone + {file});
    }
  }

  /** The waiting copy has been moved to its place, where there was nothing but a link to nowhere. */
  ghost predicate MovedBack(t: Tree, t': Tree, name: string) {
    && IsWaiting(t, name) && (name in t.entries ==> t.entries[name].Link? && !t.recycle.value[name].Dir?)
    && t'.recycle == Some(t.recycle.value - {name})
    && name in t'.entries && SameNode(t'.entries[name], t.recycle.value[name])
    && t'.entries == t.entries[name := t'.entries[name]]
  }

  lemma CarefulCases(t: Tree, t': Tree, name: string)
    requires || t' == t
             || (IsWaiting(t, name) && LeavesSome(t, t', name))
             || (IsWaiting(t, name) && ClearsAway(t, name) && t' == Without(t, name))
             || (MovedBack(t, t', name) && !IsHere(t, name) && t'.elsewhere == t.elsewhere)
             || (name !in t.entries && !IsWaiting(t, name) && t'.entries.Keys == t.entries.Keys + {name}
                 && t' == t.(entries := t'.entries) && t == Without(t', name))
    ensures Careful(t, t', name)
  {}

  lemma CarefulOverPlaceholder(t: Tree, t': Tree, name: string)
    requires ClearsAway(t, name) && MovedBack(Without(t, name), t', name) && t'.elsewhere == t.elsewhere
    ensures Careful(t, t', name)
  {}

  // ---- Over runs with failures ----

  /**
    Everything real is where it was, and every recycled copy is still there or back in its
    place.
   */
  ghost predicate NothingLost(t: Tree, t': Tree) {
    && (forall n | IsReal(t, n) :: n in t'.entries && t'.entries[n] == t.entries[n])
    && (forall n | n in Bin(t') :: n in Bin(t) && Bin(t')[n] == Bin(t)[n])
    && (forall n | n in Bin(t) && n !in Bin(t') :: n in t'.entries && SameNode(t'.entries[n], Bin(t)[n]))
    && PlacesKept(t, t')
  }

  lemma StillReal(t: Tree, u: Tree, n: string)
    requires NothingLost(t, u) && IsReal(t, n)
    ensures n in u.entries && (IsReal(u, n) || !IsWaiting(u, n))
  {
    assert IsWaiting(u, n) ==> Bin(u)[n] == Bin(t)[n];
  }

  lemma CarefulLosesNothing(t: Tree, u: Tree, v: Tree, name: string)
    requires NothingLost(t, u) && Careful(u, v, name)
    ensures NothingLost(t, v)
  {
    forall n | IsReal(t, n) ensures n in v.entries && v.entries[n] == t.entries[n] {
      StillReal(t, u, n);
    }
    hide IsReal, IsPlaceholder;
    assert Bin(v) == Bin(u) || Bin(v) == Bin(u) - {name};
    forall n | n in Bin(t) && n !in Bin(v) ensures n in v.entries && SameNode(v.entries[n], Bin(t)[n]) {
      assert n !in Bin(u) ==> !IsWaiting(u, n);
    }
  }

  /** The copy is back in its place. */
  ghost predicate IsBack(t: Tree, name: string, copy: Node) {
    name !in Bin(t) && name in t.entries && SameNode(t.entries[name], copy) && Exists(t, copy)
  }

  lemma CarefulSpares(t: Tree, t': Tree, r: Request, name: string, copy: Node, ok: bool)
    requires Waits(t, name, copy) || IsBack(t, name, copy)
    requires Careful(t, t', r.name) && (ok ==> Outcome(t', ok) == Created(t, r.name, r.owner, r.mode))
    ensures Waits(t', name, copy) || IsBack(t', name, copy)
    ensures IsBack(t, name, copy) ==> IsBack(t', name, copy)
    ensures r.name == name && ok ==> IsBack(t', name, copy)
  {
    if Waits(t, name, copy) && r.name == name {
      ComesBackIff(t, name, r.owner, r.mode);
    }
    hide Created, IsReal;
  }

  // ---- The file system ----

  class FileSystem {
    var entries: map<string, Node>
    var recycle: Option<map<string, Node>>
    var elsewhere: map<string, Place>
    var failures: nat    // system calls that have failed so far

    function View(): Tree
      reads this
    {
      Tree(entries, recycle, elsewhere)
    }

    /** Whether the next system call fails. */
    method Fails() returns (failed: bool)
      modifies this`failures
      ensures failures == old(failures) + if failed then 1 else 0
    {
      failed := *;
      if failed {
        failures := failures + 1;
      }
    }

    /**
      Remove what is at `name` if it is a directory of hidden regular files, one file at a
      time. Nothing is touched unless all of it has been seen to be such files.
     */
    method ClearPlaceholder(name: string) returns (r: Cleared)
      requires IsHere(View(), name)
      modifies this
      ensures failures >= old(failures) && recycle == old(recycle)
      ensures r == Kept ==> View() == old(View()) && failures == old(failures)
      ensures r == Removed ==> failures == old(failures)
      ensures r == Removed ==> ClearsAway(old(View()), name) && View() == old(Without(View(), name))
      ensures r == Stuck ==> View() == old(View()) || LeavesSome(old(View()), View(), name)
      ensures failures == old(failures) ==>
                match old(Listing(View(), entries[name]))
                case None => r == Stuck && View() == old(View())
                case Some(list) =>
                  if !IsPlaceholder(list) then r == Kept
                  else if old(entries[name]).Link? then r == Stuck && View() == Emptied(old(View()), name, list.Keys)
                  else r == Removed
    {
      var list := Listing(View(), entries[name]);
      var failed := Fails();
      if failed || list.None? {
        return Stuck;
      }
      var all := list.value;
      var todo := all.Keys;
      while todo != {}
        invariant todo <= all.Keys && View() == old(View()) && failures == old(failures)
        invariant forall n | n in all && n !in todo :: Hidden(n) && all[n].File?
      {
        var n :| n in todo;
        todo := todo - {n};
        if !Hidden(n) {
          return Kept;
        }
        failed := Fails();
        if failed {
          return Stuck;
        }
        if !all[n].File? {
          return Kept;
        }
      }
      ghost var gone: set<string> := {};
      EmptiedNone(View(), name);
      todo := all.Keys;
      while todo != {}
        invariant gone + todo == all.Keys && gone !! todo && failures == old(failures)
        invariant View() == Emptied(old(View()), name, gone)
      {
        var n :| n in todo;
        failed := Fails();
        if failed {
          return Stuck;
        }
        EmptiedMore(old(View()), name, gone, n);
        RemoveFile(name, n);
        todo, gone := todo - {n}, gone + {n};
      }
      failed := Fails();
      if failed || entries[name].Link? {
        return Stuck;
      }
      entries := entries - {name};
      r := Removed;
    }

    /** Delete a file of the directory at `name`, reached through a link if it is one. */
    method RemoveFile(name: string, file: string)
      requires IsHere(View(), name) && Listing(View(), entries[name]).Some?
      modifies this`entries, this`elsewhere
      ensures View() == Emptied(old(View()), name, {file})
    {
      match entries[name] {
        case Dir(es, owner, mode) => entries := entries[name := Dir(es - {file}, owner, mode)];
        case Link(target) => elsewhere := elsewhere[target := DirPlace(elsewhere[target].entries - {file})];
      }
    }

    /** Move the waiting copy back, and give it its owner if it is a directory. */
    method Restore(name: string, owner: Owner) returns (ok: bool)
      modifies this
      ensures failures >= old(failures) && elsewhere == old(elsewhere)
      ensures View() == old(View())
              || (old(IsWaiting(View(), name) && !IsHere(View(), name)) && MovedBack(old(View()), View(), name))
      ensures failures == old(failures) && old(IsWaiting(View(), name) && !IsHere(View(), name)) ==>
                Outcome(View(), ok) == Restored(old(View()), name, owner)
      ensures ok ==> failures == old(failures)
    {
      if !IsWaiting(View(), name) || IsHere(View(), name) {
        return false;
      }
      var failed := Fails();
      var copy := recycle.value[name];
      if failed || (name in entries && copy.Dir?) {
        return false;
      }
      entries, recycle := entries[name := copy], Some(recycle.value - {name});
      failed := Fails();
      if failed {
        return false;
      }
      match copy {
        case Link(_) => ok := true;
        case File(_, current) => ok := current == owner;
        case Dir(es, current, mode) =>
          if current != owner {
            failed := Fails();
            if failed {
              return false;
            }
            entries := entries[name := Dir(es, owner, mode)];
          }
          ok := true;
      }
    }

    /** Make an empty directory that is the owner's. */
    method MakeDir(name: string, owner: Owner, mode: nat) returns (ok: bool)
      modifies this
      ensures failures >= old(failures) && recycle == old(recycle) && elsewhere == old(elsewhere)
      ensures name in old(entries) ==> View() == old(View())
      ensures View() == old(View()) || (name in entries && entries == old(entries)[name := entries[name]])
      ensures failures == old(failures) ==>
                if name in old(entries) then !ok else ok && entries == old(entries)[name := Dir(map[], owner, mode)]
      ensures ok ==> failures == old(failures)
    {
      var failed := Fails();   // the lock is not free in time, or the directory cannot be made
      if failed || name in entries {
        return false;
      }
      entries := entries[name := Dir(map[], ROOT, 0)];
      failed := Fails();
      if failed {
        return false;
      }
      entries := entries[name := Dir(map[], owner, 0)];
      failed := Fails();
      if failed {
        return false;
      }
      entries := entries[name := Dir(map[], owner, mode)];
      ok := true;
    }

    /** Make a directory, or bring back one that was recycled. */
    method CreateDir(name: string, owner: Owner, mode: nat) returns (ok: bool)
      modifies this
      ensures failures >= old(failures)
      ensures Careful(old(View()), View(), name)
      ensures failures == old(failures) ==> Outcome(View(), ok) == Created(old(View()), name, owner, mode)
      ensures ok ==> failures == old(failures)
    {
      hide Careful, MovedBack, LeavesSome, IsPlaceholder, Restored;
      ghost var start := View();
      CarefulCases(start, start, name);
      var failed := Fails();   // the owner's name cannot be resolved
      if failed {
        return false;
      }
      if IsHere(View(), name) {
        if IsWaiting(View(), name) {
          var cleared := ClearPlaceholder(name);
          if cleared == Stuck {
            CarefulCases(start, View(), name);
            return false;
          }
          if cleared == Removed {
            ghost var between := View();
            ok := Restore(name, owner);
            if View() == between {
              CarefulCases(start, View(), name);
            } else {
              CarefulOverPlaceholder(start, View(), name);
            }
            return;
          }
        }
        failed := Fails();     // its metadata cannot be read
        return !failed;
      }
      if IsWaiting(View(), name) {
        ok := Restore(name, owner);
        CarefulCases(start, View(), name);
        return;
      }
      ok := MakeDir(name, owner, mode);
      assert name !in start.entries ==> start.entries == entries - {name};
      CarefulCases(start, View(), name);
    }

    /** Move what is at `name` to `.recycle`, in place of any older copy. */
    method RecycleDir(name: string) returns (ok: bool)
      modifies this
      ensures failures >= old(failures) && elsewhere == old(elsewhere)
      ensures forall n | n != name :: n in entries <==> n in old(entries)
      ensures forall n | n != name && n in entries :: entries[n] == old(entries)[n]
      ensures forall n | n != name :: n in Bin(View()) <==> n in old(Bin(View()))
      ensures forall n | n != name && n in Bin(View()) :: Bin(View())[n] == old(Bin(View()))[n]
      ensures name in old(entries) ==>
                || (name in entries && entries[name] == old(entries)[name])
                || (name in Bin(View()) && Bin(View())[name] == old(entries)[name])
      ensures failures == old(failures) ==> Outcome(View(), ok) == Recycled(old(View()), name)
      ensures ok ==> failures == old(failures)
      ensures recycle.Some? || recycle == old(recycle)
    {
      if !IsHere(View(), name) {
        return true;
      }
      var failed := false;
      if recycle.None? {
        failed := Fails();
        if failed {
          return false;
        }
        recycle := Some(map[]);
      }
      if IsWaiting(View(), name) {
        failed := Fails();
        match recycle.value[name] {
          case File(_, _) =>
            return false;      // only a directory can be removed like this
          case Link(_) =>
            if failed {
              return false;
            }
          case Dir(_, owner, mode) =>
            if failed {
              var left: map<string, Node> := *;   // some of it may be gone
              recycle := Some(recycle.value[name := Dir(left, owner, mode)]);
              return false;
            }
        }
        recycle := Some(recycle.value - {name});
      }
      failed := Fails();
      if failed || (name in recycle.value && entries[name].Dir?) {
        return false;
      }
      ghost var bin := old(Bin(View()));
      assert (bin - {name})[name := entries[name]] == bin[name := entries[name]];
      entries, recycle := entries - {name}, Some(recycle.value[name := entries[name]]);
      ok := true;
    }

    /**
      No run of requests to create directories, with system calls failing anywhere, removes a
      file, a link, a hidden directory or anything that is not hidden, or loses a recycled copy.
     */
    method CreateAll(requests: seq<Request>)
      modifies this
      ensures NothingLost(old(View()), View())
    {
      hide NothingLost, Careful;
      assert NothingLost(View(), View()) by { NothingLostAtFirst(View()); }
      for i := 0 to |requests|
        invariant NothingLost(old(View()), View())
      {
        ghost var before := View();
        var _ := CreateDir(requests[i].name, requests[i].owner, requests[i].mode);
        CarefulLosesNothing(old(View()), before, View(), requests[i].name);
      }
    }

    /**
      Whatever fails, what was recycled waits to come back or has come back, through any run in
      which others make and remove things and directories are created and recycled. The first
      creation under its name that reports success has brought it back.
     */
    method RunAll(ops: seq<Op>, name: string, ghost copy: Node) returns (done: seq<bool>)
      requires Waits(View(), name, copy) || IsBack(View(), name, copy)
      requires forall op | op in ops :: Spares(op, name)
      modifies this
      ensures Waits(View(), name, copy) || IsBack(View(), name, copy)
      ensures |done| == |ops|
      ensures forall k | 0 <= k < |ops| && ops[k].Create? && ops[k].request.name == name && done[k] ::
                IsBack(View(), name, copy)
    {
      done := [];
      for i := 0 to |ops|
        invariant Waits(View(), name, copy) || IsBack(View(), name, copy)
        invariant |done| == i
        invariant forall k | 0 <= k < i && ops[k].Create? && ops[k].request.name == name && done[k] ::
                    IsBack(View(), name, copy)
      {
        ghost var before := View();
        assert ops[i] in ops && Spares(ops[i], name);
        var ok := Do(ops[i], name, copy);
        done := done + [ok];
      }
    }

    /** One thing that happens. */
    method Do(op: Op, ghost name: string, ghost copy: Node) returns (ok: bool)
      requires Spares(op, name) && (Waits(View(), name, copy) || IsBack(View(), name, copy))
      modifies this
      ensures Waits(View(), name, copy) || IsBack(View(), name, copy)
      ensures old(IsBack(View(), name, copy)) ==> IsBack(View(), name, copy)
      ensures op.Create? && op.request.name == name && ok ==> IsBack(View(), name, copy)
    {
      ghost var before := View();
      match op {
        case Create(r) =>
          ok := CreateDir(r.name, r.owner, r.mode);
          CarefulSpares(before, View(), r, name, copy, ok);
        case Discard(n) =>
          ok := RecycleDir(n);
          assert name in Bin(View()) <==> name in Bin(before);
          assert name in Bin(before) ==> Bin(View())[name] == Bin(before)[name];
          assert name in entries <==> name in before.entries;
        case Put(n, node) =>
          ok := n !in entries;
          if ok {
            entries := entries[n := node];
          }
        case Take(n) =>
          ok := n in entries;
          entries := entries - {n};
      }
    }
  }

  lemma NothingLostAtFirst(t: Tree)
    ensures NothingLost(t, t)
  {}
}
