/** The local Group and User records of migration_helper.py, built from the platform's
    group and user records. */
module Identity {
  import opened Wrappers
  import Text

  /** A group as the platform returns it (only the fields the constructor reads). */
  datatype ApiGroup = ApiGroup(
    id: string, title: string, description: string, tags: seq<string>, snippet: string,
    phone: string, access: string, isInvitationOnly: bool)

  /** The stored group. `snippet` holds whatever `tags` held, a list of tags. */
  datatype Group = Group(
    id: string, title: string, description: string, tags: seq<string>, snippet: seq<string>,
    phone: string, access: string, isInvitationOnly: bool)

  /** A user as the platform returns it; `groups` is None when the record has no `groups` key. */
  datatype ApiUser = ApiUser(
    id: string, username: string, fullName: string, email: string, description: string,
    thumbnail: string, roleId: string, provider: string, idpUsername: string, level: string,
    userType: string, orgId: string, favGroupId: string, groups: Option<seq<ApiGroup>>)

  datatype User = User(
    id: string, username: string, fullName: string, email: string, description: string,
    thumbnail: string, role: string, provider: string, idpUsername: string, level: string,
    userType: string, orgId: string, favoriteGroupId: string, credits: int,
    groups: seq<Group>, firstName: string, lastName: string)

  /** The credits a stored user starts with; they are never fetched. */
  const DefaultCredits: int := -1

  /** The name separator in `full_name`. */
  const NameSep: char := ','

  /** `Group.__init__`: the `snippet` argument is dropped and `tags` is stored in its place. */
  function NewGroup(id: string, title: string, description: string, tags: seq<string>,
                    snippet: string, phone: string, access: string, isInvitationOnly: bool): (g: Group)
    ensures g.snippet == g.tags == tags
    ensures g.id == id && g.title == title && g.description == description
    ensures g.phone == phone && g.access == access && g.isInvitationOnly == isInvitationOnly
  {
    Group(id, title, description, tags, tags, phone, access, isInvitationOnly)
  }

  /** `Group.from_api_group`. */
  function FromApiGroup(g: ApiGroup): (r: Group)
    ensures r.snippet == r.tags == g.tags
    ensures r.id == g.id && r.title == g.title && r.description == g.description
    ensures r.phone == g.phone && r.access == g.access && r.isInvitationOnly == g.isInvitationOnly
  {
    NewGroup(g.id, g.title, g.description, g.tags, g.snippet, g.phone, g.access, g.isInvitationOnly)
  }

  /** A constructed group's snippet is its tags, whatever snippet was passed, and every other
      argument is stored as passed. */
  lemma NewGroupStoresTagsAsSnippet(id: string, title: string, description: string, tags: seq<string>,
                                    snippet: string, other: string, phone: string, access: string,
                                    isInvitationOnly: bool)
    ensures var g := NewGroup(id, title, description, tags, snippet, phone, access, isInvitationOnly);
            && g.snippet == g.tags == tags
            && g.id == id && g.title == title && g.description == description
            && g.phone == phone && g.access == access && g.isInvitationOnly == isInvitationOnly
            && g == NewGroup(id, title, description, tags, other, phone, access, isInvitationOnly)
  {
  }

  /** Converting a platform group keeps its identity and profile fields and replaces its
      snippet by its tags. */
  lemma FromApiGroupFields(g: ApiGroup, otherSnippet: string)
    ensures var r := FromApiGroup(g);
            && r.id == g.id && r.title == g.title && r.description == g.description
            && r.tags == g.tags && r.snippet == g.tags && r.phone == g.phone
            && r.access == g.access && r.isInvitationOnly == g.isInvitationOnly
            && r == FromApiGroup(g.(snippet := otherSnippet))
  {
  }

  /** The (last, first) name pair `User.__init__` derives from `full_name`, branch for branch.
      The raise branch is unreachable because splitting never gives zero pieces. */
  function ParseName(fullName: string): (r: Result<(string, string), Error>)
    ensures r.Success?
  {
    var parts := Text.Split(fullName, NameSep);
    if |parts| > 2 then Success((parts[0], parts[|parts| - 1]))
    else if |parts| == 2 then Success((parts[0], parts[1]))
    else if |parts| == 1 then Success((parts[0], parts[0]))
    else Failure(UnparseableName(fullName))
  }

  /** Whichever branch is taken, the last name is the first comma-separated piece and the first
      name is the final one. */
  lemma ParseNameOuterPieces(fullName: string)
    ensures var parts := Text.Split(fullName, NameSep);
            ParseName(fullName).value == (parts[0], parts[|parts| - 1])
  {
  }

  /** The derived names in terms of `full_name` itself: the last name is everything before the
      first comma (or all of it), the first name everything after the final comma (or all of it);
      neither contains a comma and nothing is trimmed. */
  lemma ParseNameSegments(fullName: string)
    ensures var (lastName, firstName) := ParseName(fullName).value;
            && NameSep !in lastName && NameSep !in firstName
            && (fullName == lastName
                || (|lastName| < |fullName| && fullName[..|lastName| + 1] == lastName + [NameSep]))
            && (fullName == firstName
                || (|firstName| < |fullName|
                    && fullName[|fullName| - |firstName| - 1..] == [NameSep] + firstName))
            && (NameSep !in fullName ==> lastName == firstName == fullName)
  {
    var parts := Text.Split(fullName, NameSep);
    ParseNameOuterPieces(fullName);
    Text.SplitNoSep(fullName, NameSep);
    Text.JoinSplit(fullName, NameSep);
    Text.JoinFirst(parts, NameSep);
    Text.JoinLast(parts, NameSep);
    if NameSep !in fullName {
      Text.SplitWithoutSep(fullName, NameSep);
    }
  }

  /** The name-splitting cases: "Doe, John" keeps the leading blank, an empty name gives empty
      names, and with more than one comma the middle pieces are dropped. */
  lemma ParseNameExamples()
    ensures ParseName("Doe, John").value == ("Doe", " John")
    ensures ParseName("").value == ("", "")
    ensures ParseName("Smith").value == ("Smith", "Smith")
    ensures ParseName("a,b,c").value == ("a", "c")
  {
    Text.SplitJoin(["Doe", " John"], NameSep);
    assert Text.Join(["Doe", " John"], NameSep) == "Doe, John";
    Text.SplitWithoutSep("Smith", NameSep);
    Text.SplitJoin(["a", "b", "c"], NameSep);
    assert Text.Join(["a", "b", "c"], NameSep) == "a,b,c";
  }

  /** `User.__init__`. */
  function NewUser(id: string, username: string, fullName: string, email: string,
                   description: string, thumbnail: string, role: string, provider: string,
                   idpUsername: string, level: string, userType: string, orgId: string,
                   favoriteGroupId: string, groups: seq<Group>): (u: User)
    ensures u.credits == DefaultCredits && u.groups == groups
    ensures u.id == id && u.username == username && u.fullName == fullName && u.email == email
    ensures u.role == role && u.orgId == orgId && u.favoriteGroupId == favoriteGroupId
    ensures NameSep !in u.lastName && NameSep !in u.firstName
    ensures u.lastName == Text.Split(fullName, NameSep)[0]
    ensures u.firstName == Text.Split(fullName, NameSep)[|Text.Split(fullName, NameSep)| - 1]
  {
    ParseNameOuterPieces(fullName);
    ParseNameSegments(fullName);
    var names := ParseName(fullName).value;
    User(id, username, fullName, email, description, thumbnail, role, provider, idpUsername,
         level, userType, orgId, favoriteGroupId, DefaultCredits, groups, names.1, names.0)
  }

  /** The groups of a platform user, converted in order; none when the record has no groups. */
  function ConvertGroups(groups: Option<seq<ApiGroup>>): (r: seq<Group>)
    ensures groups.None? ==> r == []
    ensures groups.Some? ==> |r| == |groups.value|
                             && forall i :: 0 <= i < |r| ==> r[i] == FromApiGroup(groups.value[i])
  {
    match groups
    case None => []
    case Some(gs) => seq(|gs|, i requires 0 <= i < |gs| => FromApiGroup(gs[i]))
  }

  /** `User.from_api_user`. */
  function FromApiUser(u: ApiUser): (r: User)
    ensures r.credits == DefaultCredits
    ensures r.id == u.id && r.email == u.email && r.fullName == u.fullName
    ensures r.groups == ConvertGroups(u.groups)
    ensures (r.lastName, r.firstName) == ParseName(u.fullName).value
  {
    NewUser(u.id, u.username, u.fullName, u.email, u.description, u.thumbnail, u.roleId,
            u.provider, u.idpUsername, u.level, u.userType, u.orgId, u.favGroupId,
            ConvertGroups(u.groups))
  }

  /** A stored user has credits -1, the record's groups converted in order (none without a
      `groups` key), every profile field copied, and names taken from the outer pieces of
      `full_name`. */
  lemma FromApiUserSpec(u: ApiUser)
    ensures var r := FromApiUser(u);
            && r.credits == -1
            && (u.groups.None? ==> r.groups == [])
            && (u.groups.Some? ==>
                  && |r.groups| == |u.groups.value|
                  && forall i :: 0 <= i < |r.groups| ==>
                       r.groups[i].id == u.groups.value[i].id
                       && r.groups[i].snippet == u.groups.value[i].tags)
            && r.username == u.username && r.description == u.description
            && r.thumbnail == u.thumbnail && r.role == u.roleId && r.provider == u.provider
            && r.idpUsername == u.idpUsername && r.level == u.level && r.userType == u.userType
            && r.orgId == u.orgId && r.favoriteGroupId == u.favGroupId
            && r.lastName == Text.Split(u.fullName, NameSep)[0]
            && r.firstName == Text.Split(u.fullName, NameSep)[|Text.Split(u.fullName, NameSep)| - 1]
  {
    ParseNameOuterPieces(u.fullName);
  }
}
