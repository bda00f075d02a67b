/** `_migrate_group` and `migrate_groups`: translate a live group into a target definition and
    the remote calls that replay it, emitted as a list of actions. */
module GroupMigration {
  import opened Wrappers
  import opened Identity
  import opened Snapshot

  /** The account that creates the groups on the target; groups it owns are not reassigned. */
  const TargetAdminUsername: string := "ujjwal.narayan_bx_content_migration"

  /** A deployment's `properties`, string-valued entries only. */
  type Properties = map<string, string>

  /** The dict passed to `create_from_dict`: the seven copied properties. */
  datatype GroupDef = GroupDef(
    title: string, description: string, tags: seq<string>, snippet: string, phone: string,
    access: string, isInvitationOnly: bool)

  /** What `get_members` returns for a group. */
  datatype Members = Members(owner: string, users: seq<string>)

  /** The remote calls on the target: `create_from_dict`, `reassign_to`, `add_users`. The last
      two act on the group created by the latest `Create`. */
  datatype Action = Create(def: GroupDef) | ReassignTo(owner: string) | AddUsers(users: seq<string>)

  /** A run of `migrate_groups`: the calls made, and the exception that ended it, if any. */
  datatype Run = Run(actions: seq<Action>, failure: Option<Error>)

  /** `properties[key]`, a KeyError when the key is missing. */
  function Lookup(props: Properties, key: string): (r: Result<string, Error>)
    ensures r.Success? <==> key in props
    ensures r.Success? ==> r.value == props[key]
    ensures r.Failure? ==> r.error == MissingKey(key)
  {
    if key in props then Success(props[key]) else Failure(MissingKey(key))
  }

  /** The baseline definition: the seven properties copied verbatim from the live group. */
  function CopyProperties(g: ApiGroup): (d: GroupDef)
    ensures d.title == g.title && d.description == g.description && d.tags == g.tags
    ensures d.snippet == g.snippet && d.phone == g.phone
    ensures d.access == g.access && d.isInvitationOnly == g.isInvitationOnly
  {
    GroupDef(g.title, g.description, g.tags, g.snippet, g.phone, g.access, g.isInvitationOnly)
  }

  /** The access rewrite, with Python's short-circuit order of lookups. The second rule reads
      the target's `portalModel` key as the code spells it. */
  function TranslateAccess(access: string, source: Properties, target: Properties): (r: Result<string, Error>)
    ensures r.Failure? <==> LookupFails(access, source, target)
    ensures r.Success? && OrgToPublic(access, target) ==> r.value == "public"
    ensures r.Success? && PublicToOrg(access, source, target) ==> r.value == "org"
    ensures r.Success? && r.value != access ==>
              (OrgToPublic(access, target) && r.value == "public")
              || (PublicToOrg(access, source, target) && r.value == "org")
  {
    if access == "org" then
      var mode :- Lookup(target, "portalMode");
      if mode == "singletenant" then Success("public")
      else PublicToOrgRule(access, source, target)
    else PublicToOrgRule(access, source, target)
  }

  /** The `elif` of the access rewrite. */
  function PublicToOrgRule(access: string, source: Properties, target: Properties): (r: Result<string, Error>)
    ensures r.Failure? <==> access == "public" && ("portalMode" !in source
                              || (source["portalMode"] == "singletenant" && "portalModel" !in target))
    ensures r.Success? ==> (r.value == "org" && access != "org" <==> PublicToOrg(access, source, target))
    ensures r.Success? && !PublicToOrg(access, source, target) ==> r.value == access
  {
    if access == "public" then
      var sourceMode :- Lookup(source, "portalMode");
      if sourceMode == "singletenant" then
        var targetModel :- Lookup(target, "portalModel");
        if targetModel == "multitenant" && "id" in target then Success("org")
        else Success(access)
      else Success(access)
    else Success(access)
  }

  /** The definition `_migrate_group` sends to `create_from_dict`. */
  function TranslateGroup(g: ApiGroup, source: Properties, target: Properties): (r: Result<GroupDef, Error>)
    ensures r.Failure? <==> LookupFails(g.access, source, target)
    ensures r.Success? ==> r.value.(access := g.access) == CopyProperties(g)
  {
    var access :- TranslateAccess(g.access, source, target);
    Success(CopyProperties(g).(access := access))
  }

  /** The org-to-public rule fires: an `org` group cloned into a single-tenant deployment. */
  predicate OrgToPublic(access: string, target: Properties) {
    access == "org" && "portalMode" in target && target["portalMode"] == "singletenant"
  }

  /** The public-to-org rule fires. */
  predicate PublicToOrg(access: string, source: Properties, target: Properties) {
    && access == "public"
    && "portalMode" in source && source["portalMode"] == "singletenant"
    && "portalModel" in target && target["portalModel"] == "multitenant"
    && "id" in target
  }

  /** A lookup the rewrite performs finds its key missing. */
  predicate LookupFails(access: string, source: Properties, target: Properties) {
    || (access == "org" && "portalMode" !in target)
    || (access == "public"
        && ("portalMode" !in source
            || (source["portalMode"] == "singletenant" && "portalModel" !in target)))
  }

  /** The translated group: it fails exactly when a needed property is missing; otherwise it
      carries the six non-access properties verbatim, and access is widened to `public` by the
      first rule, narrowed to `org` by the second, and copied in every other case. */
  lemma TranslateGroupSpec(g: ApiGroup, source: Properties, target: Properties)
    ensures TranslateGroup(g, source, target).Failure? <==> LookupFails(g.access, source, target)
    ensures TranslateGroup(g, source, target).Success? ==>
              var d := TranslateGroup(g, source, target).value;
              && d.title == g.title && d.description == g.description && d.tags == g.tags
              && d.snippet == g.snippet && d.phone == g.phone
              && d.isInvitationOnly == g.isInvitationOnly
              && (OrgToPublic(g.access, target) ==> d.access == "public")
              && (PublicToOrg(g.access, source, target) ==> d.access == "org")
              && (!OrgToPublic(g.access, target) && !PublicToOrg(g.access, source, target)
                  ==> d.access == g.access)
  {
  }

  /** Only `org` and `public` groups can change access, and only to the other of `public`/`org`. */
  lemma TranslateAccessChanges(g: ApiGroup, source: Properties, target: Properties)
    requires TranslateGroup(g, source, target).Success?
    ensures var a := TranslateGroup(g, source, target).value.access;
            a != g.access ==> (g.access == "org" && a == "public") || (g.access == "public" && a == "org")
  {
  }

  /** When the target's properties have no `portalModel` key, the
      public-to-org rule never fires: a public group from a single-tenant source instead raises
      a KeyError, and with a multi-tenant source it is copied unchanged. */
  lemma PublicWithoutPortalModelKey(g: ApiGroup, source: Properties, target: Properties)
    requires "portalMode" in source && "portalModel" !in target
    requires g.access == "public"
    ensures !PublicToOrg(g.access, source, target)
    ensures source["portalMode"] == "singletenant" ==>
              TranslateGroup(g, source, target) == Failure(MissingKey("portalModel"))
    ensures source["portalMode"] != "singletenant" ==>
              TranslateGroup(g, source, target).Success?
              && TranslateGroup(g, source, target).value.access == "public"
  {
  }

  /** The calls for one group after its definition is built: create, then reassign unless the
      admin owns it, then one bulk add when it has members. */
  function GroupActions(def: GroupDef, members: Members): (r: seq<Action>)
    ensures 1 <= |r| <= 3 && r[0] == Create(def)
    ensures forall k :: 1 <= k < |r| ==> !r[k].Create?
  {
    [Create(def)]
    + (if members.owner != TargetAdminUsername then [ReassignTo(members.owner)] else [])
    + (if |members.users| > 0 then [AddUsers(members.users)] else [])
  }

  /** `_migrate_group`; a failed lookup raises before anything is created. */
  function MigrateGroup(g: ApiGroup, members: Members, source: Properties, target: Properties)
    : (r: Result<seq<Action>, Error>)
    ensures r.Success? <==> TranslateGroup(g, source, target).Success?
    ensures r.Failure? ==> r.error == TranslateGroup(g, source, target).error
  {
    var def :- TranslateGroup(g, source, target);
    Success(GroupActions(def, members))
  }

  /** The action list of one group: the create comes first and only once; there is a reassign
      to the owner exactly when the owner is not the admin account, before any add; there is an
      add of exactly the members exactly when there are members; nothing else. */
  lemma GroupActionsSpec(def: GroupDef, members: Members)
    ensures var acts := GroupActions(def, members);
            && |acts| >= 1 && acts[0] == Create(def)
            && (forall k :: 1 <= k < |acts| ==> !acts[k].Create?)
            && ((exists k :: 0 <= k < |acts| && acts[k].ReassignTo?) <==> members.owner != TargetAdminUsername)
            && (forall k :: 0 <= k < |acts| && acts[k].ReassignTo? ==> acts[k].owner == members.owner)
            && ((exists k :: 0 <= k < |acts| && acts[k].AddUsers?) <==> |members.users| > 0)
            && (forall k :: 0 <= k < |acts| && acts[k].AddUsers? ==> acts[k].users == members.users)
            && (forall k, l :: 0 <= k < |acts| && 0 <= l < |acts| && acts[k].ReassignTo? && acts[l].AddUsers? ==> k < l)
            && |acts| == 1 + (if members.owner != TargetAdminUsername then 1 else 0)
                           + (if |members.users| > 0 then 1 else 0)
  {
    var acts := GroupActions(def, members);
    if members.owner != TargetAdminUsername {
      assert acts[1].ReassignTo?;
    }
    if |members.users| > 0 {
      assert acts[|acts| - 1].AddUsers?;
    }
  }

  /** The definitions of the `Create` actions, in order. */
  function Creates(acts: seq<Action>): (r: seq<GroupDef>)
    ensures |r| <= |acts|
  {
    if |acts| == 0 then []
    else (if acts[0].Create? then [acts[0].def] else []) + Creates(acts[1..])
  }

  lemma {:induction false} CreatesAppend(a: seq<Action>, b: seq<Action>)
    ensures Creates(a + b) == Creates(a) + Creates(b)
    decreases |a|
  {
    if |a| == 0 {
      assert a + b == b;
    } else {
      var head := if a[0].Create? then [a[0].def] else [];
      assert (a + b)[0] == a[0];
      assert (a + b)[1..] == a[1..] + b;
      assert Creates(a + b) == head + Creates(a[1..] + b);
      CreatesAppend(a[1..], b);
      assert Creates(a) == head + Creates(a[1..]);
      assert head + (Creates(a[1..]) + Creates(b)) == (head + Creates(a[1..])) + Creates(b);
    }
  }

  lemma GroupActionsCreateOnce(def: GroupDef, members: Members)
    ensures Creates(GroupActions(def, members)) == [def]
  {
    var acts := GroupActions(def, members);
    var tail := (if members.owner != TargetAdminUsername then [ReassignTo(members.owner)] else [])
                + (if |members.users| > 0 then [AddUsers(members.users)] else []);
    assert acts == [Create(def)] + tail;
    CreatesAppend([Create(def)], tail);
    assert [Create(def)][1..] == [];
    if |tail| > 0 {
      assert !tail[0].Create?;
      assert |tail| == 1 ==> tail[1..] == [];
      if |tail| == 2 {
        assert !tail[1].Create?;
        assert tail[1..][1..] == [];
      }
    }
  }

  /** One snapshot entry: the live search by id (its first hit, an IndexError when it finds
      nothing) and then `_migrate_group` on that live group. */
  function PlanFor(g: Group, search: string -> seq<ApiGroup>, membersOf: string -> Members,
                   source: Properties, target: Properties): (r: Result<seq<Action>, Error>)
    ensures |search(g.id)| == 0 ==> r == Failure(NoRecord("id:" + g.id))
  {
    var hits := search(g.id);
    if |hits| == 0 then Failure(NoRecord("id:" + g.id))
    else MigrateGroup(hits[0], membersOf(hits[0].id), source, target)
  }

  /** The loop of `migrate_groups`: nothing catches an exception, so the first failing group
      ends the run, after the calls of the groups before it were made. */
  function MigrateEach(groups: seq<Group>, search: string -> seq<ApiGroup>, membersOf: string -> Members,
                       source: Properties, target: Properties): (r: Run)
    ensures r.failure.None? <==>
              forall k :: 0 <= k < |groups| ==> PlanFor(groups[k], search, membersOf, source, target).Success?
    ensures r.failure.Some? ==>
              exists k :: 0 <= k < |groups| && PlanFor(groups[k], search, membersOf, source, target) == Failure(r.failure.value)
    decreases |groups|
  {
    if |groups| == 0 then Run([], None)
    else match PlanFor(groups[0], search, membersOf, source, target)
      case Failure(e) => Run([], Some(e))
      case Success(acts) =>
        var rest := MigrateEach(groups[1..], search, membersOf, source, target);
        Run(acts + rest.actions, rest.failure)
  }

  /** `migrate_groups`: read the groups snapshot (raising when there is none), then migrate
      every group it lists. */
  function MigrateGroups(store: Store, search: string -> seq<ApiGroup>, membersOf: string -> Members,
                         source: Properties, target: Properties): (r: Run)
    ensures ReadGroups(store).Failure? ==> r == Run([], Some(ReadGroups(store).error))
  {
    match ReadGroups(store)
    case Failure(e) => Run([], Some(e))
    case Success(groups) => MigrateEach(groups, search, membersOf, source, target)
  }

  /** The definition created for a group whose plan succeeds. */
  function PlannedDef(g: Group, search: string -> seq<ApiGroup>, source: Properties, target: Properties): GroupDef
    requires |search(g.id)| > 0
    requires TranslateGroup(search(g.id)[0], source, target).Success?
  {
    TranslateGroup(search(g.id)[0], source, target).value
  }

  predicate PlanSucceeds(g: Group, search: string -> seq<ApiGroup>, source: Properties, target: Properties) {
    |search(g.id)| > 0 && TranslateGroup(search(g.id)[0], source, target).Success?
  }

  /** `defs` are the planned definitions of the first `n` groups, in order. */
  ghost predicate CreatedInOrder(defs: seq<GroupDef>, groups: seq<Group>, n: nat,
                                 search: string -> seq<ApiGroup>, source: Properties, target: Properties) {
    && n <= |groups| && |defs| == n
    && forall j :: 0 <= j < n ==>
         PlanSucceeds(groups[j], search, source, target)
         && defs[j] == PlannedDef(groups[j], search, source, target)
  }

  /** The calls the first `n` snapshot entries make when each plan succeeds: for each entry in
      order, the create of its translated first live hit, then that hit's reassign and add. */
  ghost function PlannedActions(groups: seq<Group>, search: string -> seq<ApiGroup>, membersOf: string -> Members,
                                source: Properties, target: Properties, n: nat): seq<Action>
    requires n <= |groups|
    requires forall j :: 0 <= j < n ==> PlanSucceeds(groups[j], search, source, target)
    decreases n
  {
    if n == 0 then []
    else
      assert PlanSucceeds(groups[0], search, source, target);
      assert forall j :: 0 <= j < n - 1 ==> groups[1..][j] == groups[j + 1];
      GroupActions(PlannedDef(groups[0], search, source, target), membersOf(search(groups[0].id)[0].id))
      + PlannedActions(groups[1..], search, membersOf, source, target, n - 1)
  }

  /** When the first `k` plans succeed and the run stops at entry k (or at the end), its calls
      are exactly the planned calls of the first `k` entries, and it ends with entry k's error
      (or with none). */
  lemma {:induction false} MigrateEachRun(groups: seq<Group>, search: string -> seq<ApiGroup>,
                                          membersOf: string -> Members, source: Properties,
                                          target: Properties, k: nat)
    requires k <= |groups|
    requires forall j :: 0 <= j < k ==> PlanSucceeds(groups[j], search, source, target)
    requires k < |groups| ==> !PlanSucceeds(groups[k], search, source, target)
    ensures k < |groups| ==> PlanFor(groups[k], search, membersOf, source, target).Failure?
    ensures MigrateEach(groups, search, membersOf, source, target).actions
            == PlannedActions(groups, search, membersOf, source, target, k)
    ensures MigrateEach(groups, search, membersOf, source, target).failure
            == if k < |groups| then Some(PlanFor(groups[k], search, membersOf, source, target).error) else None
    decreases k
  {
    if k == 0 {
      if |groups| > 0 {
        assert PlanFor(groups[0], search, membersOf, source, target).Failure?;
      }
    } else {
      var g := groups[0];
      var def := PlannedDef(g, search, source, target);
      var acts := GroupActions(def, membersOf(search(g.id)[0].id));
      assert PlanFor(g, search, membersOf, source, target) == Success(acts);
      var tail := groups[1..];
      forall j | 0 <= j < k - 1 ensures PlanSucceeds(tail[j], search, source, target) {
        assert tail[j] == groups[j + 1];
      }
      if k < |groups| {
        assert tail[k - 1] == groups[k];
      }
      MigrateEachRun(tail, search, membersOf, source, target, k - 1);
    }
  }

  /** The creates among the planned calls of the first `n` entries are their translated
      definitions, one per entry, in order. */
  lemma {:induction false} PlannedCreates(groups: seq<Group>, search: string -> seq<ApiGroup>,
                                          membersOf: string -> Members, source: Properties,
                                          target: Properties, n: nat)
    requires n <= |groups|
    requires forall j :: 0 <= j < n ==> PlanSucceeds(groups[j], search, source, target)
    ensures CreatedInOrder(Creates(PlannedActions(groups, search, membersOf, source, target, n)),
                           groups, n, search, source, target)
    decreases n
  {
    if n == 0 {
      assert Creates([]) == [];
    } else {
      var def := PlannedDef(groups[0], search, source, target);
      var members := membersOf(search(groups[0].id)[0].id);
      var tail := groups[1..];
      forall j | 0 <= j < n - 1 ensures PlanSucceeds(tail[j], search, source, target) {
        assert tail[j] == groups[j + 1];
      }
      PlannedCreates(tail, search, membersOf, source, target, n - 1);
      var rest := PlannedActions(tail, search, membersOf, source, target, n - 1);
      assert PlannedActions(groups, search, membersOf, source, target, n) == GroupActions(def, members) + rest;
      CreatesAppend(GroupActions(def, members), rest);
      GroupActionsCreateOnce(def, members);
      var defs := Creates(PlannedActions(groups, search, membersOf, source, target, n));
      assert defs == [def] + Creates(rest);
      forall j | 0 < j < n ensures defs[j] == PlannedDef(groups[j], search, source, target) {
        assert groups[j] == tail[j - 1];
      }
    }
  }

  /** When every group's search and translation succeed, the run ends normally and makes the
      calls of every snapshot entry in snapshot order: one group created per entry from its first
      live hit, each followed by that group's reassign and add. */
  lemma MigrateEachAllSucceed(groups: seq<Group>, search: string -> seq<ApiGroup>,
                              membersOf: string -> Members, source: Properties, target: Properties)
    requires forall k :: 0 <= k < |groups| ==> PlanSucceeds(groups[k], search, source, target)
    ensures MigrateEach(groups, search, membersOf, source, target).failure.None?
    ensures MigrateEach(groups, search, membersOf, source, target).actions
            == PlannedActions(groups, search, membersOf, source, target, |groups|)
    ensures CreatedInOrder(Creates(MigrateEach(groups, search, membersOf, source, target).actions),
                           groups, |groups|, search, source, target)
  {
    MigrateEachRun(groups, search, membersOf, source, target, |groups|);
    PlannedCreates(groups, search, membersOf, source, target, |groups|);
  }

  /** When group k is the first whose plan fails, the run ends with that group's error, having
      made exactly the calls of the groups before it, in order: their creates, reassigns and
      adds. */
  lemma MigrateEachStopsAtFirstFailure(groups: seq<Group>, search: string -> seq<ApiGroup>,
                                       membersOf: string -> Members, source: Properties,
                                       target: Properties, k: nat)
    requires k < |groups|
    requires forall j :: 0 <= j < k ==> PlanSucceeds(groups[j], search, source, target)
    requires !PlanSucceeds(groups[k], search, source, target)
    ensures PlanFor(groups[k], search, membersOf, source, target).Failure?
    ensures MigrateEach(groups, search, membersOf, source, target).failure
            == Some(PlanFor(groups[k], search, membersOf, source, target).error)
    ensures MigrateEach(groups, search, membersOf, source, target).actions
            == PlannedActions(groups, search, membersOf, source, target, k)
    ensures CreatedInOrder(Creates(MigrateEach(groups, search, membersOf, source, target).actions),
                           groups, k, search, source, target)
  {
    MigrateEachRun(groups, search, membersOf, source, target, k);
    PlannedCreates(groups, search, membersOf, source, target, k);
  }

  /** Migrating right after a successful groups backup walks the backed-up groups' ids in
      order: the run is the loop over the converted groups. */
  lemma MigrateAfterBackup(store: Store, gs: seq<ApiGroup>, search: string -> seq<ApiGroup>,
                           membersOf: string -> Members, source: Properties, target: Properties)
    ensures var after := BackupGroups(store, Success(gs)).0;
            MigrateGroups(after, search, membersOf, source, target)
            == MigrateEach(ConvertApiGroups(gs), search, membersOf, source, target)
    ensures forall i :: 0 <= i < |gs| ==> ConvertApiGroups(gs)[i].id == gs[i].id
  {
  }
}
