/** Does the front end mirror the back end's roles and permissions (check_repo in scripts/governance/check_permission_mirror.py)? */
module PermissionMirror {
  import opened Ordering
  import opened RouteAccess

  const BACKEND_ONLY_ROLES := {"admin", "teacher", "head_teacher", "exam_coordinator", "observer"}

  datatype Backend = Backend(values: set<string>, roles: map<string, set<string>>)

  datatype Message =
    | ValuesMissing(values: seq<string>)
    | ValuesUnknown(values: seq<string>)
    | RolesMissing(roles: seq<string>)
    | RolesUnknown(roles: seq<string>)
    | PermissionRolesMissing(roles: seq<string>)
    | PermissionRolesExtra(roles: seq<string>)
    | RoleDrift(role: string, missing: seq<string>, extra: seq<string>)
    | AliasUnknown(alias: string)
    | TargetUnknown(target: string)
    | AliasDiffers(alias: string, target: string)

  function FrontendValues(fe: Frontend): set<string> {
    set role, p | role in fe.rolePermissions && p in fe.rolePermissions[role] :: p
  }

  function ExpectedRoles(be: Backend): set<string> { be.roles.Keys - BACKEND_ONLY_ROLES }

  function PermissionsOf(fe: Frontend, role: string): set<string> {
    if role in fe.rolePermissions then fe.rolePermissions[role] else {}
  }

  /** What a clean report means. */
  ghost predicate Mirrors(be: Backend, fe: Frontend) {
    && FrontendValues(fe) == be.values
    && fe.canonicalRoles == ExpectedRoles(be) == fe.rolePermissions.Keys
    && (forall role :: role in fe.canonicalRoles ==> fe.rolePermissions[role] == be.roles[role])
    && (forall alias :: alias in fe.legacyAliases ==>
          alias in be.roles && fe.legacyAliases[alias] in be.roles
          && be.roles[alias] == be.roles[fe.legacyAliases[alias]])
  }

  /** The list names exactly the elements of a set that is not empty, in order. */
  ghost predicate Names(list: seq<string>, s: set<string>) {
    list != [] && SortedBy(list, StringLe) && Distinct(list) && forall x :: x in list <==> x in s
  }

  /** What a message says is so. */
  ghost predicate Justified(be: Backend, fe: Frontend, m: Message) {
    match m
    case ValuesMissing(vs) => Names(vs, be.values - FrontendValues(fe))
    case ValuesUnknown(vs) => Names(vs, FrontendValues(fe) - be.values)
    case RolesMissing(rs) => Names(rs, ExpectedRoles(be) - fe.canonicalRoles)
    case RolesUnknown(rs) => Names(rs, fe.canonicalRoles - ExpectedRoles(be))
    case PermissionRolesMissing(rs) => Names(rs, fe.canonicalRoles - fe.rolePermissions.Keys)
    case PermissionRolesExtra(rs) => Names(rs, fe.rolePermissions.Keys - fe.canonicalRoles)
    case RoleDrift(role, missing, extra) =>
      && role in fe.canonicalRoles && role in be.roles
      && Lists(missing, be.roles[role] - PermissionsOf(fe, role)) && Lists(extra, PermissionsOf(fe, role) - be.roles[role])
      && (missing != [] || extra != [])
    case AliasUnknown(alias) => alias in fe.legacyAliases && alias !in be.roles
    case TargetUnknown(target) => target !in be.roles && exists alias :: alias in fe.legacyAliases && fe.legacyAliases[alias] == target
    case AliasDiffers(alias, target) =>
      alias in fe.legacyAliases && fe.legacyAliases[alias] == target && alias in be.roles && target in be.roles
      && be.roles[alias] != be.roles[target]
  }

  ghost predicate Lists(list: seq<string>, s: set<string>) { if s == {} then list == [] else Names(list, s) }

  ghost predicate AllJustified(be: Backend, fe: Frontend, messages: seq<Message>) {
    forall m :: m in messages ==> Justified(be, fe, m)
  }

  method ReportDifference(left: set<string>, right: set<string>) returns (found: seq<string>)
    ensures found == [] <==> left <= right
    ensures Lists(found, left - right)
  {
    StringTotalOrder();
    hide TotalOrder, SortedBy, Distinct, StringLe;
    found := Sorted(left - right, StringLe);
    SameEmptiness(found, left - right);
    NoDifference(left, right);
  }

  lemma {:induction false} NoDifference(left: set<string>, right: set<string>)
    ensures left - right == {} <==> left <= right
  {
    if left - right == {} {
      forall x | x in left ensures x in right { assert x !in left - right; }
    }
  }

  lemma {:induction false} SameEmptiness(list: seq<string>, s: set<string>)
    requires forall x :: x in list <==> x in s
    ensures list == [] <==> s == {}
  {
    if list != [] { assert list[0] in list; }
  }

  method CompareValues(be: Backend, fe: Frontend) returns (messages: seq<Message>)
    ensures messages == [] <==> FrontendValues(fe) == be.values
    ensures AllJustified(be, fe, messages)
  {
    hide Names, FrontendValues, SortedBy, Distinct;
    var missing := ReportDifference(be.values, FrontendValues(fe));
    var extra := ReportDifference(FrontendValues(fe), be.values);
    messages := (if missing != [] then [ValuesMissing(missing)] else [])
      + if extra != [] then [ValuesUnknown(extra)] else [];
  }

  method CompareRoles(be: Backend, fe: Frontend) returns (messages: seq<Message>)
    ensures messages == [] <==> fe.canonicalRoles == ExpectedRoles(be)
    ensures AllJustified(be, fe, messages)
  {
    hide Names, ExpectedRoles;
    var missing := ReportDifference(ExpectedRoles(be), fe.canonicalRoles);
    var extra := ReportDifference(fe.canonicalRoles, ExpectedRoles(be));
    messages := (if missing != [] then [RolesMissing(missing)] else [])
      + if extra != [] then [RolesUnknown(extra)] else [];
  }

  method ComparePermissionRoles(be: Backend, fe: Frontend) returns (messages: seq<Message>)
    ensures messages == [] <==> fe.canonicalRoles == fe.rolePermissions.Keys
    ensures AllJustified(be, fe, messages)
  {
    hide Names;
    var missing := ReportDifference(fe.canonicalRoles, fe.rolePermissions.Keys);
    var extra := ReportDifference(fe.rolePermissions.Keys, fe.canonicalRoles);
    messages := (if missing != [] then [PermissionRolesMissing(missing)] else [])
      + if extra != [] then [PermissionRolesExtra(extra)] else [];
  }

  /** The report is empty exactly when the front end mirrors the back end, and every message in it is true. */
  method CheckRepo(be: Backend, fe: Frontend) returns (messages: seq<Message>)
    ensures messages == [] <==> Mirrors(be, fe)
    ensures AllJustified(be, fe, messages)
  {
    hide Justified, FrontendValues;
    var values := CompareValues(be, fe);
    var roles := CompareRoles(be, fe);
    var holders := ComparePermissionRoles(be, fe);
    var drift := RoleDrifts(be, fe);
    var aliases := AliasDrifts(be, fe);
    messages := values + roles + holders + drift + aliases;
  }

  method RoleDriftOf(be: Backend, fe: Frontend, role: string) returns (messages: seq<Message>)
    requires role in fe.canonicalRoles && role in be.roles
    ensures messages == [] <==> PermissionsOf(fe, role) == be.roles[role]
    ensures AllJustified(be, fe, messages)
  {
    hide Lists, PermissionsOf;
    var missing := ReportDifference(be.roles[role], PermissionsOf(fe, role));
    var extra := ReportDifference(PermissionsOf(fe, role), be.roles[role]);
    messages := if missing != [] || extra != [] then [RoleDrift(role, missing, extra)] else [];
  }

  method RoleDrifts(be: Backend, fe: Frontend) returns (messages: seq<Message>)
    ensures messages == [] <==>
      forall role :: role in fe.canonicalRoles && role in be.roles ==> PermissionsOf(fe, role) == be.roles[role]
    ensures AllJustified(be, fe, messages)
  {
    hide Justified, PermissionsOf;
    var roles := InOrder(fe.canonicalRoles * be.roles.Keys);
    messages := [];
    for i := 0 to |roles|
      invariant AllJustified(be, fe, messages)
      invariant messages == [] <==> forall k :: 0 <= k < i ==> PermissionsOf(fe, roles[k]) == be.roles[roles[k]]
    {
      var more := RoleDriftOf(be, fe, roles[i]);
      messages := messages + more;
    }
    assert forall role :: role in fe.canonicalRoles && role in be.roles ==> role in roles;
  }

  predicate AliasMirrors(be: Backend, alias: string, target: string) {
    alias in be.roles && target in be.roles && be.roles[alias] == be.roles[target]
  }

  method AliasDriftOf(be: Backend, fe: Frontend, alias: string) returns (messages: seq<Message>)
    requires alias in fe.legacyAliases
    ensures messages == [] <==> AliasMirrors(be, alias, fe.legacyAliases[alias])
    ensures AllJustified(be, fe, messages)
  {
    var target := fe.legacyAliases[alias];
    messages := [];
    if alias !in be.roles {
      messages := [AliasUnknown(alias)];
    } else if target !in be.roles {
      messages := [TargetUnknown(target)];
    } else if be.roles[alias] != be.roles[target] {
      messages := [AliasDiffers(alias, target)];
    }
  }

  method AliasDrifts(be: Backend, fe: Frontend) returns (messages: seq<Message>)
    ensures messages == [] <==>
      forall alias :: alias in fe.legacyAliases ==> AliasMirrors(be, alias, fe.legacyAliases[alias])
    ensures AllJustified(be, fe, messages)
  {
    hide Justified, AliasMirrors;
    var aliases := InOrder(fe.legacyAliases.Keys);
    messages := [];
    for i := 0 to |aliases|
      invariant AllJustified(be, fe, messages)
      invariant messages == [] <==>
        forall k :: 0 <= k < i ==> AliasMirrors(be, aliases[k], fe.legacyAliases[aliases[k]])
    {
      var more := AliasDriftOf(be, fe, aliases[i]);
      messages := messages + more;
    }
    assert forall alias :: alias in fe.legacyAliases ==> alias in aliases;
  }

  /** With a clean report, a canonical role that is no alias has in the front end exactly its back-end permissions. */
  lemma {:induction false} CanonicalRoleMirrored(be: Backend, fe: Frontend, role: string, permission: string)
    requires Mirrors(be, fe) && role in fe.canonicalRoles && role !in fe.legacyAliases
    ensures role in be.roles && (HasPermission(fe, NormalizeRole(fe, role), permission) <==> permission in be.roles[role])
  {
    assert role in ExpectedRoles(be);
  }

  /** An alias has them exactly when its target is a role the front end knows, or there are none to have. */
  lemma {:induction false} AliasMirrored(be: Backend, fe: Frontend, alias: string)
    requires Mirrors(be, fe) && alias in fe.legacyAliases && fe.legacyAliases[alias] != ""
    ensures alias in be.roles
    ensures (forall permission :: HasPermission(fe, NormalizeRole(fe, alias), permission) <==> permission in be.roles[alias])
            <==> fe.legacyAliases[alias] !in BACKEND_ONLY_ROLES || be.roles[alias] == {}
  {
    var target := fe.legacyAliases[alias];
    assert NormalizeRole(fe, alias) == target && target in be.roles;
    if target in BACKEND_ONLY_ROLES {
      assert target !in fe.rolePermissions;
      if be.roles[alias] != {} {
        var p :| p in be.roles[alias];
        assert !HasPermission(fe, NormalizeRole(fe, alias), p);
      }
    } else {
      assert target in fe.canonicalRoles;
    }
  }

  /** A report can be clean although an alias leads to a role that only the back end knows, and so loses its rights. */
  lemma {:induction false} CleanReportWithDeadAlias()
    ensures exists be: Backend, fe: Frontend ::
      Mirrors(be, fe) && "proctor" in fe.legacyAliases && "proctor" in be.roles && "read" in be.roles["proctor"]
      && !HasPermission(fe, NormalizeRole(fe, "proctor"), "read")
  {
    var be := Backend({"read"}, map["parent" := {"read"}, "observer" := {"read"}, "proctor" := {"read"}]);
    var fe := Frontend(map["parent" := {"read"}, "proctor" := {"read"}], {"parent", "proctor"},
                       map["proctor" := "observer"], map[]);
    assert FrontendValues(fe) == {"read"} by { assert "read" in fe.rolePermissions["parent"]; }
    assert ExpectedRoles(be) == {"parent", "proctor"};
    assert Mirrors(be, fe);
  }
}
