/**
 The module gate of the front end (_compare_frontend in scripts/governance/check_module_semantics.py),
 and what two clean checks say about the run-time decision of RouteAccess.
 */
module ModuleGate {
  import opened Ordering
  import opened Wrappers
  import opened RouteAccess
  import opened PermissionMirror

  /** The declared truth: the switch codes, and for each route its code, or None for a route no module gates. */
  datatype Truth = Truth(codes: set<string>, routes: map<string, Option<string>>)

  datatype Surface = AccessTable | RouterMeta | Sidebar | Dashboard

  const ALL_SURFACES := [AccessTable, Sidebar, Dashboard, RouterMeta]
  const GATING_SURFACES := [AccessTable, Sidebar, Dashboard]

  /** What was parsed: per surface the codes written beside routes, and (if at hand) all routes it shows. */
  datatype Parsed = Parsed(accessTable: map<string, string>, routerMeta: map<string, string>,
                           sidebar: map<string, string>, dashboard: map<string, string>,
                           shown: Option<map<Surface, set<string>>>)
  {
    function Codes(s: Surface): map<string, string> {
      match s
      case AccessTable => accessTable
      case RouterMeta => routerMeta
      case Sidebar => sidebar
      case Dashboard => dashboard
    }

    function Shown(s: Surface): set<string> {
      if shown.Some? && s in shown.value then shown.value[s] else {}
    }
  }

  datatype Error =
    | Undeclared(surface: Surface, route: string)
    | CodeOnNullRoute(surface: Surface, route: string)
    | WrongCode(surface: Surface, route: string)
    | Inconsistent(route: string)
    | WildCode(code: string)
    | CodeNowhere(route: string)
    | CodeMissing(surface: Surface, route: string)
    | DynamicUndeclared(route: string)

  /** The declared code of a route, None also when the route is not declared. */
  function Want(truth: Truth, route: string): Option<string> {
    if route in truth.routes then truth.routes[route] else None
  }

  predicate Contains(text: string, part: string) {
    exists i :: 0 <= i <= |text| && part <= text[i..]
  }

  predicate Dynamic(route: string) { Contains(route, ":") && !Contains(route, "(.*)") }

  /** A dynamic route holds a colon and is not a catch-all. */
  lemma {:induction false} DynamicMeans(route: string)
    ensures Dynamic(route) <==> ':' in route && forall a, b :: route != a + "(.*)" + b
  {
    ContainsMeans(route, ":");
    ContainsMeans(route, "(.*)");
    hide Contains;
    if ':' in route {
      var i :| 0 <= i < |route| && route[i] == ':';
      assert route == route[..i] + ":" + route[i + 1..];
    }
    if a, b :| route == a + ":" + b { assert route[|a|] == ':'; }
  }

  lemma {:induction false} ContainsMeans(text: string, part: string)
    ensures Contains(text, part) <==> exists a, b :: text == a + part + b
  {
    if i :| 0 <= i <= |text| && part <= text[i..] {
      assert text == text[..i] + part + text[i + |part|..];
    }
    if a, b :| text == a + part + b {
      assert text[|a|..] == part + b;
    }
  }

  // ---------- The rules, one by one ----------

  ghost predicate CodesAgree(truth: Truth, parsed: Parsed, s: Surface) {
    forall route :: route in parsed.Codes(s) ==>
      route in truth.routes && truth.routes[route] == Some(parsed.Codes(s)[route])
  }

  ghost predicate SameInBoth(parsed: Parsed) {
    forall route :: route in parsed.accessTable && route in parsed.routerMeta ==>
      parsed.accessTable[route] == parsed.routerMeta[route]
  }

  ghost predicate NoWildCode(truth: Truth, parsed: Parsed, s: Surface) {
    forall route :: route in parsed.Codes(s) ==> parsed.Codes(s)[route] in truth.codes
  }

  ghost predicate ControlledSomewhere(truth: Truth, parsed: Parsed) {
    forall route :: Want(truth, route).Some? && (exists s :: s in ALL_SURFACES && route in parsed.Shown(s)) ==>
      exists s :: s in ALL_SURFACES && route in parsed.Codes(s)
  }

  ghost predicate SurfaceCovered(truth: Truth, parsed: Parsed, s: Surface) {
    forall route :: route in parsed.Shown(s) && route !in parsed.Codes(s) ==>
      route in truth.routes && truth.routes[route] == None
  }

  ghost predicate MetaCovered(truth: Truth, parsed: Parsed) {
    && (forall route :: Want(truth, route).Some? && route in parsed.Shown(RouterMeta) ==> route in parsed.routerMeta)
    && (forall route :: route in parsed.Shown(RouterMeta) && Dynamic(route) && route !in parsed.routerMeta ==>
          route in truth.routes)
  }

  /** What a clean check means. */
  ghost predicate FrontendClean(truth: Truth, parsed: Parsed) {
    && (forall s :: CodesAgree(truth, parsed, s) && NoWildCode(truth, parsed, s))
    && SameInBoth(parsed)
    && (parsed.shown.Some? && parsed.shown.value != map[] ==>
          && ControlledSomewhere(truth, parsed)
          && (forall s :: s in GATING_SURFACES ==> SurfaceCovered(truth, parsed, s))
          && MetaCovered(truth, parsed))
  }

  /** What an error says is so. */
  ghost predicate Justified(truth: Truth, parsed: Parsed, e: Error) {
    match e
    case Undeclared(s, r) => r !in truth.routes && (r in parsed.Codes(s) || r in parsed.Shown(s))
    case CodeOnNullRoute(s, r) => r in parsed.Codes(s) && r in truth.routes && truth.routes[r] == None
    case WrongCode(s, r) => r in parsed.Codes(s) && Want(truth, r).Some? && Want(truth, r) != Some(parsed.Codes(s)[r])
    case Inconsistent(r) => r in parsed.accessTable && r in parsed.routerMeta && parsed.accessTable[r] != parsed.routerMeta[r]
    case WildCode(c) => c !in truth.codes && exists s, r :: r in parsed.Codes(s) && parsed.Codes(s)[r] == c
    case CodeNowhere(r) => Want(truth, r).Some? && (exists s :: r in parsed.Shown(s)) && forall s :: r !in parsed.Codes(s)
    case CodeMissing(s, r) => Want(truth, r).Some? && r in parsed.Shown(s) && r !in parsed.Codes(s)
    case DynamicUndeclared(r) => r in parsed.Shown(RouterMeta) && Dynamic(r) && r !in parsed.routerMeta && r !in truth.routes
  }

  ghost predicate AllJustified(truth: Truth, parsed: Parsed, errs: seq<Error>) {
    forall e :: e in errs ==> Justified(truth, parsed, e)
  }

  // ---------- The check ----------

  method CheckCodes(truth: Truth, parsed: Parsed, s: Surface) returns (errs: seq<Error>)
    ensures errs == [] <==> CodesAgree(truth, parsed, s)
    ensures AllJustified(truth, parsed, errs)
  {
    var codes := parsed.Codes(s);
    var routes := InOrder(codes.Keys);
    errs := [];
    for i := 0 to |routes|
      invariant AllJustified(truth, parsed, errs)
      invariant errs == [] <==>
        forall k :: 0 <= k < i ==> routes[k] in truth.routes && truth.routes[routes[k]] == Some(codes[routes[k]])
    {
      var route := routes[i];
      if route !in truth.routes {
        errs := errs + [Undeclared(s, route)];
      } else if truth.routes[route] == None {
        errs := errs + [CodeOnNullRoute(s, route)];
      } else if truth.routes[route] != Some(codes[route]) {
        errs := errs + [WrongCode(s, route)];
      }
    }
    assert forall route :: route in codes ==> route in routes;
  }

  method CheckSame(truth: Truth, parsed: Parsed) returns (errs: seq<Error>)
    ensures errs == [] <==> SameInBoth(parsed)
    ensures AllJustified(truth, parsed, errs)
  {
    var routes := InOrder(parsed.accessTable.Keys * parsed.routerMeta.Keys);
    errs := [];
    for i := 0 to |routes|
      invariant AllJustified(truth, parsed, errs)
      invariant errs == [] <==> forall k :: 0 <= k < i ==> parsed.accessTable[routes[k]] == parsed.routerMeta[routes[k]]
    {
      if parsed.accessTable[routes[i]] != parsed.routerMeta[routes[i]] { errs := errs + [Inconsistent(routes[i])]; }
    }
    assert forall route :: route in parsed.accessTable && route in parsed.routerMeta ==> route in routes;
  }

  method CheckWild(truth: Truth, parsed: Parsed, s: Surface) returns (errs: seq<Error>)
    ensures errs == [] <==> NoWildCode(truth, parsed, s)
    ensures AllJustified(truth, parsed, errs)
  {
    var codes := parsed.Codes(s);
    var routes := InOrder(codes.Keys);
    errs := [];
    for i := 0 to |routes|
      invariant AllJustified(truth, parsed, errs)
      invariant errs == [] <==> forall k :: 0 <= k < i ==> codes[routes[k]] in truth.codes
    {
      if codes[routes[i]] !in truth.codes { errs := errs + [WildCode(codes[routes[i]])]; }
    }
    assert forall route :: route in codes ==> route in routes;
  }

  ghost predicate ControlledAt(truth: Truth, parsed: Parsed, route: string) {
    Want(truth, route).Some? && (exists s :: s in ALL_SURFACES && route in parsed.Shown(s)) ==>
      exists s :: s in ALL_SURFACES && route in parsed.Codes(s)
  }

  method CheckControlledAt(truth: Truth, parsed: Parsed, route: string) returns (errs: seq<Error>)
    ensures errs == [] <==> ControlledAt(truth, parsed, route)
    ensures AllJustified(truth, parsed, errs)
  {
    var declared := parsed.accessTable.Keys + parsed.sidebar.Keys + parsed.dashboard.Keys + parsed.routerMeta.Keys;
    CodesOfAll(parsed, route);
    errs := [];
    if Want(truth, route).Some? {
      var appears := exists s :: s in ALL_SURFACES && route in parsed.Shown(s);
      if appears && route !in declared { errs := [CodeNowhere(route)]; }
    }
  }

  /** Rule 1: a controlled route shown on some surface carries its code on some surface. */
  method CheckControlled(truth: Truth, parsed: Parsed) returns (errs: seq<Error>)
    ensures errs == [] <==> ControlledSomewhere(truth, parsed)
    ensures AllJustified(truth, parsed, errs)
  {
    hide Justified, Parsed.Shown, Parsed.Codes;
    var routes := InOrder(truth.routes.Keys);
    errs := [];
    for i := 0 to |routes|
      invariant AllJustified(truth, parsed, errs)
      invariant errs == [] <==> forall k :: 0 <= k < i ==> ControlledAt(truth, parsed, routes[k])
    {
      var more := CheckControlledAt(truth, parsed, routes[i]);
      errs := errs + more;
    }
    assert forall route :: Want(truth, route).Some? ==> route in routes;
  }

  lemma {:induction false} CodesOfAll(parsed: Parsed, route: string)
    ensures route in parsed.accessTable.Keys + parsed.sidebar.Keys + parsed.dashboard.Keys + parsed.routerMeta.Keys
            <==> exists s :: s in ALL_SURFACES && route in parsed.Codes(s)
  {
    assert ALL_SURFACES[0] == AccessTable && ALL_SURFACES[1] == Sidebar;
    assert ALL_SURFACES[2] == Dashboard && ALL_SURFACES[3] == RouterMeta;
    if route in parsed.accessTable { assert AccessTable in ALL_SURFACES && route in parsed.Codes(AccessTable); }
    if route in parsed.sidebar { assert Sidebar in ALL_SURFACES && route in parsed.Codes(Sidebar); }
    if route in parsed.dashboard { assert Dashboard in ALL_SURFACES && route in parsed.Codes(Dashboard); }
    if route in parsed.routerMeta { assert RouterMeta in ALL_SURFACES && route in parsed.Codes(RouterMeta); }
  }

  /** Rule 2: on a gating surface every route without a code is declared to need none. */
  method CheckSurface(truth: Truth, parsed: Parsed, s: Surface) returns (errs: seq<Error>)
    ensures errs == [] <==> SurfaceCovered(truth, parsed, s)
    ensures AllJustified(truth, parsed, errs)
  {
    var routes := InOrder(parsed.Shown(s));
    errs := [];
    for i := 0 to |routes|
      invariant AllJustified(truth, parsed, errs)
      invariant errs == [] <==> forall k :: 0 <= k < i ==>
        (routes[k] !in parsed.Codes(s) ==> routes[k] in truth.routes && truth.routes[routes[k]] == None)
    {
      var route := routes[i];
      if route !in parsed.Codes(s) {
        if route !in truth.routes {
          errs := errs + [Undeclared(s, route)];
        } else if truth.routes[route] != None {
          errs := errs + [CodeMissing(s, route)];
        }
      }
    }
    assert forall route :: route in parsed.Shown(s) ==> route in routes;
  }

  /** Rule 3: route records of controlled routes carry their code, and dynamic ones are declared. */
  method CheckMeta(truth: Truth, parsed: Parsed) returns (errs: seq<Error>)
    ensures errs == [] <==> MetaCovered(truth, parsed)
    ensures AllJustified(truth, parsed, errs)
  {
    var routes := InOrder(truth.routes.Keys);
    errs := [];
    for i := 0 to |routes|
      invariant AllJustified(truth, parsed, errs)
      invariant errs == [] <==> forall k :: 0 <= k < i ==>
        (Want(truth, routes[k]).Some? && routes[k] in parsed.Shown(RouterMeta) ==> routes[k] in parsed.routerMeta)
    {
      var route := routes[i];
      if truth.routes[route].Some? && route in parsed.Shown(RouterMeta) && route !in parsed.routerMeta {
        errs := errs + [CodeMissing(RouterMeta, route)];
      }
    }
    assert forall route :: Want(truth, route).Some? ==> route in routes;
    var dynamic := CheckDynamic(truth, parsed);
    errs := errs + dynamic;
  }

  method CheckDynamic(truth: Truth, parsed: Parsed) returns (errs: seq<Error>)
    ensures errs == [] <==>
      forall route :: route in parsed.Shown(RouterMeta) && Dynamic(route) && route !in parsed.routerMeta ==>
        route in truth.routes
    ensures AllJustified(truth, parsed, errs)
  {
    hide Dynamic;
    var routes := InOrder(parsed.Shown(RouterMeta));
    errs := [];
    for i := 0 to |routes|
      invariant AllJustified(truth, parsed, errs)
      invariant errs == [] <==> forall k :: 0 <= k < i ==>
        (Dynamic(routes[k]) && routes[k] !in parsed.routerMeta ==> routes[k] in truth.routes)
    {
      var route := routes[i];
      if Dynamic(route) && route !in parsed.routerMeta && route !in truth.routes {
        errs := errs + [DynamicUndeclared(route)];
      }
    }
    assert forall route :: route in parsed.Shown(RouterMeta) ==> route in routes;
  }

  /** The check reports nothing exactly when all its rules hold, and every error it reports is true. */
  method CompareFrontend(truth: Truth, parsed: Parsed) returns (errs: seq<Error>)
    ensures errs == [] <==> FrontendClean(truth, parsed)
    ensures AllJustified(truth, parsed, errs)
  {
    hide CodesAgree, SameInBoth, NoWildCode, ControlledSomewhere, SurfaceCovered, MetaCovered, Justified;
    errs := [];
    for i := 0 to |ALL_SURFACES|
      invariant AllJustified(truth, parsed, errs)
      invariant errs == [] <==> forall k :: 0 <= k < i ==> CodesAgree(truth, parsed, ALL_SURFACES[k])
    {
      var more := CheckCodes(truth, parsed, ALL_SURFACES[i]);
      errs := errs + more;
    }
    var same := CheckSame(truth, parsed);
    errs := errs + same;
    ghost var agreed := errs == [];
    for i := 0 to |ALL_SURFACES|
      invariant AllJustified(truth, parsed, errs)
      invariant errs == [] <==> agreed && forall k :: 0 <= k < i ==> NoWildCode(truth, parsed, ALL_SURFACES[k])
    {
      var more := CheckWild(truth, parsed, ALL_SURFACES[i]);
      errs := errs + more;
    }
    EverySurface(truth, parsed);
    if parsed.shown.Some? && parsed.shown.value != map[] {
      var controlled := CheckControlled(truth, parsed);
      var a := CheckSurface(truth, parsed, AccessTable);
      var b := CheckSurface(truth, parsed, Sidebar);
      var c := CheckSurface(truth, parsed, Dashboard);
      var meta := CheckMeta(truth, parsed);
      errs := errs + controlled + a + b + c + meta;
    }
  }

  lemma {:induction false} SurfaceListed(s: Surface)
    ensures s in ALL_SURFACES
  {
    match s
    case AccessTable => assert ALL_SURFACES[0] == s;
    case Sidebar => assert ALL_SURFACES[1] == s;
    case Dashboard => assert ALL_SURFACES[2] == s;
    case RouterMeta => assert ALL_SURFACES[3] == s;
  }

  lemma {:induction false} EverySurface(truth: Truth, parsed: Parsed)
    ensures (forall s :: CodesAgree(truth, parsed, s))
            <==> forall k :: 0 <= k < |ALL_SURFACES| ==> CodesAgree(truth, parsed, ALL_SURFACES[k])
    ensures (forall s :: NoWildCode(truth, parsed, s))
            <==> forall k :: 0 <= k < |ALL_SURFACES| ==> NoWildCode(truth, parsed, ALL_SURFACES[k])
    ensures (forall s :: s in GATING_SURFACES ==> SurfaceCovered(truth, parsed, s))
            <==> SurfaceCovered(truth, parsed, AccessTable) && SurfaceCovered(truth, parsed, Sidebar)
                 && SurfaceCovered(truth, parsed, Dashboard)
  {
    hide CodesAgree, NoWildCode, SurfaceCovered;
    if forall k :: 0 <= k < |ALL_SURFACES| ==> CodesAgree(truth, parsed, ALL_SURFACES[k]) {
      forall s ensures CodesAgree(truth, parsed, s) { SurfaceListed(s); }
    }
    if forall k :: 0 <= k < |ALL_SURFACES| ==> NoWildCode(truth, parsed, ALL_SURFACES[k]) {
      forall s ensures NoWildCode(truth, parsed, s) { SurfaceListed(s); }
    }
    assert GATING_SURFACES[0] == AccessTable && GATING_SURFACES[1] == Sidebar && GATING_SURFACES[2] == Dashboard;
  }

  /** Every code beside a route is the declared one of that route, and a switch that exists. */
  ghost predicate CodesDeclared(truth: Truth, parsed: Parsed, s: Surface) {
    forall r :: r in parsed.Codes(s) ==>
      r in truth.routes && truth.routes[r] == Some(parsed.Codes(s)[r]) && parsed.Codes(s)[r] in truth.codes
  }

  /** A route shown without a code is declared to need none; the router may show undeclared ones that are not dynamic. */
  ghost predicate ShownDeclared(truth: Truth, parsed: Parsed, s: Surface) {
    forall r :: r in parsed.Shown(s) && r !in parsed.Codes(s) ==>
      if r in truth.routes then truth.routes[r] == None else s == RouterMeta && !Dynamic(r)
  }

  lemma {:induction false} CodesDeclaredIs(truth: Truth, parsed: Parsed, s: Surface)
    ensures CodesDeclared(truth, parsed, s) <==> CodesAgree(truth, parsed, s) && NoWildCode(truth, parsed, s)
  {
    hide Parsed.Codes;
  }

  lemma {:induction false} ShownDeclaredIs(truth: Truth, parsed: Parsed, s: Surface)
    ensures s in GATING_SURFACES ==> (ShownDeclared(truth, parsed, s) <==> SurfaceCovered(truth, parsed, s))
    ensures s !in GATING_SURFACES ==> s == RouterMeta && (ShownDeclared(truth, parsed, s) <==> MetaCovered(truth, parsed))
  {
    hide Dynamic, Parsed.Codes, Parsed.Shown;
    GatingAre(s);
    CodesOf(parsed);
  }

  lemma {:induction false} GatingAre(s: Surface)
    ensures s in GATING_SURFACES <==> s != RouterMeta
  {
    assert GATING_SURFACES[0] == AccessTable && GATING_SURFACES[1] == Sidebar && GATING_SURFACES[2] == Dashboard;
  }

  lemma {:induction false} CodesOf(parsed: Parsed)
    ensures parsed.Codes(AccessTable) == parsed.accessTable && parsed.Codes(RouterMeta) == parsed.routerMeta
  {
  }

  lemma {:induction false} SameFollows(truth: Truth, parsed: Parsed)
    requires CodesAgree(truth, parsed, AccessTable) && CodesAgree(truth, parsed, RouterMeta)
    ensures SameInBoth(parsed)
  {
    hide Parsed.Codes;
    CodesOf(parsed);
    forall r | r in parsed.accessTable && r in parsed.routerMeta ensures parsed.accessTable[r] == parsed.routerMeta[r] {
      assert truth.routes[r] == Some(parsed.Codes(AccessTable)[r]);
      assert truth.routes[r] == Some(parsed.Codes(RouterMeta)[r]);
    }
  }

  lemma {:induction false} ControlFollows(truth: Truth, parsed: Parsed)
    requires forall s :: ShownDeclared(truth, parsed, s)
    ensures ControlledSomewhere(truth, parsed)
  {
    hide Dynamic, Parsed.Codes, Parsed.Shown;
    forall r, s | Want(truth, r).Some? && s in ALL_SURFACES && r in parsed.Shown(s) ensures r in parsed.Codes(s) {
      assert ShownDeclared(truth, parsed, s);
    }
  }

  /** Surface by surface, clean means that what is written and shown is as declared. That the two surfaces with codes agree,
      and that a gated route has its code somewhere, follows. */
  lemma {:induction false} FrontendCleanMeans(truth: Truth, parsed: Parsed)
    ensures FrontendClean(truth, parsed) <==>
      && (forall s :: CodesDeclared(truth, parsed, s))
      && (parsed.shown.Some? && parsed.shown.value != map[] ==> forall s :: ShownDeclared(truth, parsed, s))
  {
    hide CodesAgree, NoWildCode, SameInBoth, ControlledSomewhere, SurfaceCovered, MetaCovered, CodesDeclared, ShownDeclared;
    forall s ensures CodesDeclared(truth, parsed, s) <==> CodesAgree(truth, parsed, s) && NoWildCode(truth, parsed, s) {
      CodesDeclaredIs(truth, parsed, s);
    }
    forall s
      ensures s in GATING_SURFACES ==> (ShownDeclared(truth, parsed, s) <==> SurfaceCovered(truth, parsed, s))
      ensures s !in GATING_SURFACES ==> s == RouterMeta && (ShownDeclared(truth, parsed, s) <==> MetaCovered(truth, parsed))
    {
      ShownDeclaredIs(truth, parsed, s);
    }
    GatingAre(RouterMeta);
    if forall s :: CodesAgree(truth, parsed, s) { SameFollows(truth, parsed); }
    if forall s :: ShownDeclared(truth, parsed, s) { ControlFollows(truth, parsed); }
  }

  // ---------- What clean checks guarantee at run time ----------

  /** The parsed data describe this front end: codes as written, and all routes of the access table. */
  ghost predicate Describes(parsed: Parsed, fe: Frontend) {
    && (forall route :: route in parsed.accessTable <==>
          route in fe.routes && fe.routes[route].moduleCode.Some? && fe.routes[route].moduleCode.value != "")
    && (forall route :: route in parsed.accessTable ==> fe.routes[route].moduleCode == Some(parsed.accessTable[route]))
    && parsed.shown.Some? && AccessTable in parsed.shown.value && parsed.Shown(AccessTable) == fe.routes.Keys
  }

  /** The back end grants what the route needs. */
  ghost predicate Granted(permissions: set<string>, need: Need) {
    match need
    case Nothing => true
    case One(p) => p == "" || p in permissions
    case AnyOf(ps) => exists p :: p in ps && p in permissions
  }

  /** A declared module is open to callers that are exempt and to those who have it among their loaded modules. Old
      call sites pass just the enabled modules, which then count as loaded, or nothing, which opens no module. */
  ghost predicate ModuleOpen(want: Option<string>, gate: GateArg) {
    match want
    case None => true
    case Some(code) =>
      match gate
      case Context(exempt, loaded, enabled) => exempt || (loaded && enabled.Some? && code in enabled.value)
      case Legacy(enabled) => code in enabled
      case Absent => false
  }

  /** One of the permissions that a route record asks for, if it asks for any. */
  ghost predicate RecordGranted(permissions: set<string>, meta: RouteMeta) {
    meta.permissions.Some? && meta.permissions.value != [] ==>
      exists p :: p in meta.permissions.value && p in permissions
  }

  /** A role known to the front end, directly or as an alias of a role it knows. */
  predicate KnownRole(fe: Frontend, role: string) {
    if role in fe.legacyAliases && fe.legacyAliases[role] != "" then fe.legacyAliases[role] in fe.canonicalRoles
    else role in fe.canonicalRoles
  }

  lemma {:induction false} PermissionDecision(be: Backend, fe: Frontend, role: string, need: Need)
    requires Mirrors(be, fe) && KnownRole(fe, role)
    ensures role in be.roles && (PermissionMatches(fe, role, need) <==> Granted(be.roles[role], need))
  {
    var r := NormalizeRole(fe, role);
    assert r in fe.canonicalRoles && r in fe.rolePermissions && r in ExpectedRoles(be);
    assert be.roles[role] == be.roles[r] == fe.rolePermissions[r];
  }

  lemma {:induction false} ModuleDecision(truth: Truth, parsed: Parsed, fe: Frontend, route: string, gate: GateArg)
    requires FrontendClean(truth, parsed) && Describes(parsed, fe) && route in fe.routes
    ensures route in truth.routes
    ensures ModuleMatches(fe.routes[route].moduleCode, gate) <==> ModuleOpen(truth.routes[route], gate)
  {
    hide NoWildCode, SameInBoth, ControlledSomewhere, MetaCovered;
    assert CodesAgree(truth, parsed, AccessTable);
    assert AccessTable in GATING_SURFACES by { assert GATING_SURFACES[0] == AccessTable; }
    assert SurfaceCovered(truth, parsed, AccessTable);
    assert parsed.shown.value != map[];
    if route in parsed.accessTable {
      assert route in parsed.Codes(AccessTable);
    } else {
      assert route in parsed.Shown(AccessTable) && route !in parsed.Codes(AccessTable);
    }
  }

  /** With both checks clean, a page of the access table opens exactly when the back end grants what it needs and its
      declared module is open. */
  lemma {:induction false} CleanChecksDecideAccess(be: Backend, fe: Frontend, truth: Truth, parsed: Parsed,
                                                   role: string, route: string, gate: GateArg)
    requires Mirrors(be, fe) && FrontendClean(truth, parsed) && Describes(parsed, fe)
    requires KnownRole(fe, role) && route in fe.routes
    ensures role in be.roles && route in truth.routes
    ensures CanAccessRouteForRole(fe, role, route, gate)
            <==> Granted(be.roles[role], fe.routes[route].need) && ModuleOpen(truth.routes[route], gate)
  {
    hide Mirrors, FrontendClean, Describes, PermissionMatches, ModuleMatches, Granted, ModuleOpen, KnownRole;
    PermissionDecision(be, fe, role, fe.routes[route].need);
    ModuleDecision(truth, parsed, fe, route, gate);
  }

  /** With both checks clean and the gate built for the caller: a caller of a school opens a page exactly when its rights
      suffice and its declared module is none, or loaded and enabled, so before the modules are loaded no gated page
      opens; any other caller needs the rights only. */
  lemma {:induction false} CreatedGateDecides(be: Backend, fe: Frontend, truth: Truth, parsed: Parsed, role: string,
                                              route: string, school: bool, loaded: bool, enabled: Option<seq<string>>)
    requires Mirrors(be, fe) && FrontendClean(truth, parsed) && Describes(parsed, fe)
    requires KnownRole(fe, role) && route in fe.routes
    ensures role in be.roles && route in truth.routes
    ensures var want := truth.routes[route];
      CanAccessRouteForRole(fe, role, route, CreateModuleGate(school, loaded, enabled))
      <==> Granted(be.roles[role], fe.routes[route].need)
           && (!school || want.None? || (loaded && enabled.Some? && want.value in enabled.value))
  {
    hide Mirrors, FrontendClean, Describes, CanAccessRouteForRole, Granted, KnownRole;
    CleanChecksDecideAccess(be, fe, truth, parsed, role, route, CreateModuleGate(school, loaded, enabled));
  }

  /** The record of a route, as the router shows it, carries the code that was parsed for it. */
  ghost predicate RecordOf(parsed: Parsed, meta: RouteMeta, route: string) {
    && route in parsed.Shown(RouterMeta)
    && if route in parsed.routerMeta then parsed.routerMeta[route] != "" && meta.moduleCode == Some(parsed.routerMeta[route])
       else meta.moduleCode == None || meta.moduleCode == Some("")
  }

  /** A page reached by a dynamic route has no entry in the table; it opens exactly when the back end grants one of
      the permissions of its record (if any are asked for) and the declared module of its route is open. */
  lemma {:induction false} DynamicRouteDecision(be: Backend, fe: Frontend, truth: Truth, parsed: Parsed, role: string,
                                                path: string, route: string, meta: RouteMeta, gate: GateArg)
    requires Mirrors(be, fe) && FrontendClean(truth, parsed) && Describes(parsed, fe) && KnownRole(fe, role)
    requires path !in fe.routes && Dynamic(route) && RecordOf(parsed, meta, route)
    ensures role in be.roles && route in truth.routes
    ensures CanAccessMatchedRoute(fe, role, path, meta, gate)
            <==> RecordGranted(be.roles[role], meta) && ModuleOpen(truth.routes[route], gate)
  {
    hide NoWildCode, SameInBoth, ControlledSomewhere, SurfaceCovered, Dynamic, Mirrors, KnownRole;
    PermissionDecision(be, fe, role, Nothing);
    if meta.permissions.Some? { PermissionDecision(be, fe, role, AnyOf(meta.permissions.value)); }
    assert CodesAgree(truth, parsed, RouterMeta);
    assert parsed.shown.value != map[];
    assert MetaCovered(truth, parsed);
    if route in parsed.routerMeta { assert route in parsed.Codes(RouterMeta); }
    if route in truth.routes && truth.routes[route].Some? { assert Want(truth, route).Some?; }
  }

  lemma {:induction false} RecordDecision(be: Backend, fe: Frontend, role: string, meta: RouteMeta)
    requires Mirrors(be, fe) && KnownRole(fe, role)
    ensures role in be.roles
    ensures (meta.permissions.Some? && meta.permissions.value != [] ==>
              exists p :: p in meta.permissions.value && HasPermission(fe, NormalizeRole(fe, role), p))
            <==> RecordGranted(be.roles[role], meta)
  {
    hide Mirrors, KnownRole;
    PermissionDecision(be, fe, role, Nothing);
    if meta.permissions.Some? { PermissionDecision(be, fe, role, AnyOf(meta.permissions.value)); }
  }

  /** A page of the access table whose own record agrees with it: a code written in either place is the declared one. */
  lemma {:induction false} TableRecordModule(truth: Truth, parsed: Parsed, fe: Frontend, path: string, meta: RouteMeta,
                                             gate: GateArg)
    requires FrontendClean(truth, parsed) && Describes(parsed, fe) && path in fe.routes && RecordOf(parsed, meta, path)
    ensures path in truth.routes
    ensures var own := Truthy(fe.routes[path].moduleCode);
      ModuleMatches(if own.Some? then own else meta.moduleCode, gate) <==> ModuleOpen(truth.routes[path], gate)
  {
    hide NoWildCode, SameInBoth, ControlledSomewhere, MetaCovered;
    ModuleDecision(truth, parsed, fe, path, gate);
    assert CodesAgree(truth, parsed, AccessTable) && CodesAgree(truth, parsed, RouterMeta);
    assert AccessTable in GATING_SURFACES by { assert GATING_SURFACES[0] == AccessTable; }
    assert SurfaceCovered(truth, parsed, AccessTable);
    if path in parsed.routerMeta { assert path in parsed.Codes(RouterMeta); }
    if path in parsed.accessTable {
      assert path in parsed.Codes(AccessTable);
    } else {
      assert path in parsed.Shown(AccessTable) && path !in parsed.Codes(AccessTable);
    }
  }

  /** A page of the access table that is now open stays open exactly when the back end grants what the table asks for
      and one of the permissions of its record (if any are asked for), and its declared module is open. */
  lemma {:induction false} TableRouteDecision(be: Backend, fe: Frontend, truth: Truth, parsed: Parsed, role: string,
                                              path: string, meta: RouteMeta, gate: GateArg)
    requires Mirrors(be, fe) && FrontendClean(truth, parsed) && Describes(parsed, fe) && KnownRole(fe, role)
    requires path in fe.routes && RecordOf(parsed, meta, path)
    ensures role in be.roles && path in truth.routes
    ensures CanAccessMatchedRoute(fe, role, path, meta, gate)
            <==> Granted(be.roles[role], fe.routes[path].need) && RecordGranted(be.roles[role], meta)
                 && ModuleOpen(truth.routes[path], gate)
  {
    hide *;
    PermissionDecision(be, fe, role, fe.routes[path].need);
    RecordDecision(be, fe, role, meta);
    TableRecordModule(truth, parsed, fe, path, meta, gate);
    MatchedInTable(fe, role, path, meta, gate);
  }

  lemma {:induction false} MatchedInTable(fe: Frontend, role: string, path: string, meta: RouteMeta, gate: GateArg)
    requires path in fe.routes
    ensures var own := Truthy(fe.routes[path].moduleCode);
      CanAccessMatchedRoute(fe, role, path, meta, gate) <==>
        && PermissionMatches(fe, role, fe.routes[path].need)
        && (meta.permissions.Some? && meta.permissions.value != [] ==>
              exists p :: p in meta.permissions.value && HasPermission(fe, NormalizeRole(fe, role), p))
        && ModuleMatches(if own.Some? then own else meta.moduleCode, gate)
  {
  }
}
