/**
  Identifiers of projects and groups, the names groups get in FreeIPA, and the descriptions
  that carry the identifier of a group there (freeipa.rs, grammar.rs and validate.rs).
 */
module Names {
  import opened Identifiers
  import opened Text
  import opened Wrappers

  const MAX_IDENTIFIER_COMPONENT_LEN := 64

  predicate IsComponentChar(c: char) {
    'a' <= c <= 'z' || 'A' <= c <= 'Z' || '0' <= c <= '9' || c == '_' || c == '-'
  }

  predicate ValidComponent(s: string) {
    0 < |s| <= MAX_IDENTIFIER_COMPONENT_LEN && s[0] != '-' && forall c | c in s :: IsComponentChar(c)
  }

  predicate Valid(id: Identifier) {
    ValidComponent(id.project) && ValidComponent(id.portal)
  }

  /** A component is one to sixty-four letters, digits, underscores and hyphens, and begins with no hyphen. */
  lemma ValidComponentIff(s: string)
    ensures ValidComponent(s) <==>
            && 1 <= |s| <= 64 && s[0] != '-'
            && forall c | c in s :: 'a' <= c <= 'z' || 'A' <= c <= 'Z' || '0' <= c <= '9' || c in "_-"
  {}

  /** Two components separated by one dot; spaces around either are ignored. */
  function Parse(text: string): (r: Option<Identifier>)
    ensures r.Some? ==> Valid(r.value)
  {
    match Find(text, '.')
    case None => None
    case Some(dot) =>
      var id := Identifier(Trim(text[..dot]), Trim(text[dot + 1..]));
      if Valid(id) then Some(id) else None
  }

  const INTERNAL_PORTALS: set<string> := {"openportal", "system", "instance"}

  /** The name of a group in FreeIPA (`identifier_to_projectid` with `legacy` false). */
  function GroupName(id: Identifier): string {
    if id.portal in INTERNAL_PORTALS then id.project else id.portal + "." + id.project
  }

  /** The name groups had before portals qualified it. Internal groups are not looked up by it. */
  function LegacyName(id: Identifier): Option<string> {
    if id.portal in INTERNAL_PORTALS then None else Some("group." + id.project)
  }

  lemma ValidIsDotFree(id: Identifier)
    requires Valid(id)
    ensures '.' !in id.project && '.' !in id.portal
  {
    assert !IsComponentChar('.');
  }

  lemma QualifiedInjective(i: Identifier, j: Identifier)
    requires Valid(i) && Valid(j)
    requires i.portal + "." + i.project == j.portal + "." + j.project
    ensures i == j
  {
    ValidIsDotFree(i);
    ValidIsDotFree(j);
    FindAfter(i.portal, '.', i.project);
    FindAfter(j.portal, '.', j.project);
    var name := i.portal + "." + i.project;
    assert i.portal == name[..|i.portal|] && j.portal == name[..|j.portal|];
    assert i.project == name[|i.portal| + 1..] && j.project == name[|j.portal| + 1..];
  }

  /**
    Two identifiers share a name in FreeIPA exactly when they are the same project of two
    internal portals, such as `x.system` and `x.instance`.
   */
  lemma NamesClashIff(i: Identifier, j: Identifier)
    requires Valid(i) && Valid(j)
    ensures GroupName(i) == GroupName(j) <==>
            || i == j
            || (i.project == j.project && i.portal in {"openportal", "system", "instance"}
                                       && j.portal in {"openportal", "system", "instance"})
  {
    ValidIsDotFree(i);
    ValidIsDotFree(j);
    if i.portal !in INTERNAL_PORTALS {
      assert GroupName(i)[|i.portal|] == '.';
    }
    if j.portal !in INTERNAL_PORTALS {
      assert GroupName(j)[|j.portal|] == '.';
    }
    if GroupName(i) == GroupName(j) && i.portal !in INTERNAL_PORTALS && j.portal !in INTERNAL_PORTALS {
      QualifiedInjective(i, j);
    }
  }

  // ---- Descriptions ----

  /** The description a group is created with: its identifier, then words for people. */
  function Describe(id: Identifier, words: string): string {
    id.project + "." + id.portal + " | " + words
  }

  /** The identifier a description gives, if it gives one (`IPAGroup::construct`). */
  function DescribedIdentifier(description: string): Option<Identifier> {
    match Find(description, '|')
    case None => Parse(Trim(description))
    case Some(bar) => Parse(Trim(description[..bar]))
  }

  /** The words differ from group to group; nothing depends on them. */
  const WORDS := "OpenPortal-managed group"

  lemma ComponentIsTrimmed(s: string)
    requires ValidComponent(s)
    ensures Trimmed(s) && '.' !in s && '|' !in s && ' ' !in s
  {
    assert s[0] in s && s[|s| - 1] in s;
    assert forall c | IsSpace(c) :: !IsComponentChar(c);
    assert !IsComponentChar('.') && !IsComponentChar('|');
  }

  lemma ParsePrinted(id: Identifier)
    requires Valid(id)
    ensures Parse(id.project + "." + id.portal) == Some(id)
  {
    ComponentIsTrimmed(id.project);
    ComponentIsTrimmed(id.portal);
    FindAfter(id.project, '.', id.portal);
    var text := id.project + "." + id.portal;
    assert text[..|id.project|] == id.project && text[|id.project| + 1..] == id.portal;
  }

  /** A group that is read back has the identifier it was created with. */
  lemma DescribeRoundTrip(id: Identifier, words: string)
    requires Valid(id)
    ensures DescribedIdentifier(Describe(id, words)) == Some(id)
  {
    ComponentIsTrimmed(id.project);
    ComponentIsTrimmed(id.portal);
    var text := id.project + "." + id.portal;
    var head, tail := text + " ", " " + words;
    assert Describe(id, words) == head + ['|'] + tail;
    FindAfter(head, '|', tail);
    assert Describe(id, words)[..|head|] == head;
    assert Trim(head) == text by {
      assert head[..|head| - 1] == text;
      assert text[0] == id.project[0] && text[|text| - 1] == id.portal[|id.portal| - 1];
    }
    ParsePrinted(id);
  }

  const MANAGED := Identifier("openportal", "openportal")

  const BLOCKED_NAME := "openportal.blocked"
  const BLOCKED_DESCRIPTION := "Group for all users blocked by OpenPortal"

  lemma WordsHaveNoIdentifier(description: string)
    requires '.' !in description && '|' !in description
    ensures DescribedIdentifier(description) == None
  {}

  /** The group of blocked users is described by words only, so it has no identifier. */
  lemma BlockedHasNoIdentifier()
    ensures DescribedIdentifier(BLOCKED_DESCRIPTION) == None
  {
    WordsHaveNoIdentifier(BLOCKED_DESCRIPTION);
  }

  /** No project or internal group is ever named like the group of blocked users. */
  lemma NeverNamedBlocked(id: Identifier)
    requires Valid(id)
    ensures GroupName(id) != BLOCKED_NAME
  {
    var blocked := Identifier("blocked", "openportal");
    assert Valid(blocked);
    ValidIsDotFree(id);
    assert BLOCKED_NAME == blocked.portal + "." + blocked.project;
    assert BLOCKED_NAME[|blocked.portal|] == '.';
    if id.portal !in INTERNAL_PORTALS && GroupName(id) == BLOCKED_NAME {
      QualifiedInjective(id, blocked);
      assert false;
    }
  }
}
