/** Who may open a page: the front end's run-time decision (frontend/src/config/routeAccess.js, roles.js, permissions.js). */
module RouteAccess {
  import opened Wrappers

  /** What a route asks for: nothing, one permission, or any of a list (an empty list is met by nobody). */
  datatype Need = Nothing | One(permission: string) | AnyOf(permissions: seq<string>)

  datatype Requirement = Requirement(need: Need, moduleCode: Option<string>)

  datatype RouteMeta = RouteMeta(permissions: Option<seq<string>>, moduleCode: Option<string>)

  /** The configuration tables of the front end. */
  datatype Frontend = Frontend(rolePermissions: map<string, set<string>>, canonicalRoles: set<string>,
                               legacyAliases: map<string, string>, routes: map<string, Requirement>)

  /** The gate as callers pass it: a context, or in old call sites just the enabled modules or nothing. */
  datatype GateArg = Context(exempt: bool, modulesLoaded: bool, enabledModules: Option<seq<string>>)
                   | Legacy(enabled: seq<string>) | Absent

  datatype Gate = Gate(exempt: bool, modulesLoaded: bool, enabledModules: seq<string>)

  function OrEmpty(enabled: Option<seq<string>>): seq<string> {
    if enabled.Some? then enabled.value else []
  }

  function CreateModuleGate(schoolScoped: bool, modulesLoaded: bool, enabledModules: Option<seq<string>>): GateArg {
    Context(!schoolScoped, modulesLoaded, Some(OrEmpty(enabledModules)))
  }

  function NormalizeGate(gate: GateArg): Gate {
    match gate
    case Context(exempt, loaded, enabled) => Gate(exempt, loaded, OrEmpty(enabled))
    case Legacy(enabled) => Gate(false, true, enabled)
    case Absent => Gate(false, true, [])
  }

  /** An absent or empty string counts as no value. */
  function Truthy(s: Option<string>): Option<string> { if s.Some? && s.value == "" then None else s }

  function NormalizeRole(fe: Frontend, role: string): string {
    if role in fe.legacyAliases && fe.legacyAliases[role] != "" then fe.legacyAliases[role] else role
  }

  predicate HasPermission(fe: Frontend, role: string, permission: string) {
    role in fe.rolePermissions && permission in fe.rolePermissions[role]
  }

  predicate PermissionMatches(fe: Frontend, role: string, need: Need) {
    match need
    case Nothing => true
    case One(p) => p == "" || HasPermission(fe, NormalizeRole(fe, role), p)
    case AnyOf(ps) => exists p :: p in ps && HasPermission(fe, NormalizeRole(fe, role), p)
  }

  predicate ModuleMatches(moduleCode: Option<string>, gate: GateArg) {
    Truthy(moduleCode).None? ||
    var g := NormalizeGate(gate);
    g.exempt || (g.modulesLoaded && moduleCode.value in g.enabledModules)
  }

  predicate CanAccessRouteForRole(fe: Frontend, role: string, route: string, gate: GateArg) {
    route !in fe.routes ||
    (PermissionMatches(fe, role, fe.routes[route].need) && ModuleMatches(fe.routes[route].moduleCode, gate))
  }

  /** Access to the page now open, from the table entry of its path and from its route record. */
  predicate CanAccessMatchedRoute(fe: Frontend, role: string, path: string, meta: RouteMeta, gate: GateArg) {
    var need := if path in fe.routes then fe.routes[path].need else Nothing;
    var own := if path in fe.routes then Truthy(fe.routes[path].moduleCode) else None;
    && PermissionMatches(fe, role, need)
    && (meta.permissions.Some? && meta.permissions.value != [] ==>
          exists p :: p in meta.permissions.value && HasPermission(fe, NormalizeRole(fe, role), p))
    && ModuleMatches(if own.Some? then own else meta.moduleCode, gate)
  }
}
