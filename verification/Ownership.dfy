/**
 Single ownership of tables, routes and services: the two conflict checks (scripts/governance/aggregate_modules.py and
 module_governance_guard.py) and the ownership of workflow services.
 */
module Ownership {
  import opened ObjectScanner
  import opened Ordering
  import opened Sequences
  import opened Wrappers

  datatype Module = Module(name: string, tables: seq<string>, routes: seq<string>, services: seq<string>)

  datatype Kind = Table | Route | Service

  datatype Conflict = Conflict(kind: Kind, value: string, first: string, second: string)

  datatype Claim = Claim(name: string, value: string)

  function Owned(m: Module, kind: Kind): seq<string> {
    match kind
    case Table => m.tables
    case Route => m.routes
    case Service => m.services
  }

  /** Two modules of different names declare the value. */
  ghost predicate Shared(modules: seq<Module>, kind: Kind, value: string) {
    exists a, b :: a in modules && b in modules && a.name != b.name && value in Owned(a, kind) && value in Owned(b, kind)
  }

  // ---------- Claims in order ----------

  function Pairs(name: string, values: seq<string>): seq<Claim> { seq(|values|, i requires 0 <= i < |values| => Claim(name, values[i])) }

  function Claims(modules: seq<Module>, kind: Kind): seq<Claim> {
    if modules == [] then []
    else
      var m := modules[|modules| - 1];
      Claims(modules[..|modules| - 1], kind) + Pairs(m.name, Owned(m, kind))
  }

  /** The name under which a value is claimed first. */
  function First(claims: seq<Claim>, value: string): Option<string> {
    if claims == [] then None
    else if claims[0].value == value then Some(claims[0].name)
    else First(claims[1..], value)
  }

  ghost predicate Records(owner: map<string, string>, claims: seq<Claim>) {
    forall v :: First(claims, v) == if v in owner then Some(owner[v]) else None
  }

  /** The value was first claimed under one name, and is also claimed under another. */
  ghost predicate IsConflict(claims: seq<Claim>, c: Conflict) {
    First(claims, c.value) == Some(c.first) && Claim(c.second, c.value) in claims && c.first != c.second
  }

  lemma {:induction false} FirstOfTwo(a: seq<Claim>, b: seq<Claim>, v: string)
    ensures First(a + b, v) == if First(a, v).Some? then First(a, v) else First(b, v)
  {
    if a == [] {
      assert a + b == b;
    } else {
      assert (a + b)[1..] == a[1..] + b;
      FirstOfTwo(a[1..], b, v);
    }
  }

  lemma {:induction false} FirstIsClaimed(claims: seq<Claim>, v: string)
    ensures First(claims, v).Some? ==> Claim(First(claims, v).value, v) in claims
    ensures First(claims, v).None? ==> forall c :: c in claims ==> c.value != v
  {
    if claims != [] {
      assert claims == [claims[0]] + claims[1..];
      FirstIsClaimed(claims[1..], v);
    }
  }

  lemma {:induction false} ClaimsOf(modules: seq<Module>, kind: Kind, name: string, value: string)
    ensures Claim(name, value) in Claims(modules, kind)
            <==> exists m :: m in modules && m.name == name && value in Owned(m, kind)
  {
    if modules != [] {
      var n := |modules| - 1;
      ClaimsOf(modules[..n], kind, name, value);
      assert modules == modules[..n] + [modules[n]];
      InPairs(modules[n].name, Owned(modules[n], kind), name, value);
    }
  }

  lemma {:induction false} InPairs(owner: string, values: seq<string>, name: string, value: string)
    ensures Claim(name, value) in Pairs(owner, values) <==> name == owner && value in values
  {
    if name == owner && value in values {
      var i :| 0 <= i < |values| && values[i] == value;
      assert Pairs(owner, values)[i] == Claim(name, value);
    }
  }

  /** A value has conflicts exactly when modules of two names declare it. */
  lemma {:induction false} ConflictMeansShared(modules: seq<Module>, kind: Kind, value: string)
    ensures (exists c: Conflict :: c.kind == kind && c.value == value && IsConflict(Claims(modules, kind), c))
            <==> Shared(modules, kind, value)
  {
    hide Claims, First;
    var claims := Claims(modules, kind);
    FirstIsClaimed(claims, value);
    forall name ensures Claim(name, value) in claims
                        <==> exists m :: m in modules && m.name == name && value in Owned(m, kind) {
      ClaimsOf(modules, kind, name, value);
    }
    if Shared(modules, kind, value) {
      var a, b :| a in modules && b in modules && a.name != b.name && value in Owned(a, kind) && value in Owned(b, kind);
      assert Claim(a.name, value) in claims && Claim(b.name, value) in claims;
      var first := First(claims, value).value;
      var second := if a.name == first then b.name else a.name;
      assert IsConflict(claims, Conflict(kind, value, first, second));
    }
  }

  // ---------- The check of aggregate_modules ----------

  /** A module claims a value that is first claimed under another name. */
  ghost predicate IsNew(kind: Kind, before: seq<Claim>, name: string, values: seq<string>, c: Conflict) {
    c.kind == kind && c.second == name && c.value in values && First(before, c.value) == Some(c.first) && c.first != name
  }

  function FirstOrOwn(before: seq<Claim>, name: string, values: seq<string>, v: string): Option<string> {
    if First(before, v).Some? then First(before, v) else if v in values then Some(name) else None
  }

  lemma {:induction false} ClaimedBy(before: seq<Claim>, name: string, values: seq<string>, v: string)
    ensures First(before + Pairs(name, values), v)
            == FirstOrOwn(before, name, values, v)
  {
    FirstOfTwo(before, Pairs(name, values), v);
    FirstIsClaimed(Pairs(name, values), v);
    InPairs(name, values, name, v);
    if First(Pairs(name, values), v).Some? { InPairs(name, values, First(Pairs(name, values), v).value, v); }
  }

  lemma {:induction false} ConflictsGrow(kind: Kind, before: seq<Claim>, name: string, values: seq<string>, c: Conflict)
    requires c.kind == kind
    ensures IsConflict(before + Pairs(name, values), c)
            <==> IsConflict(before, c) || IsNew(kind, before, name, values, c)
  {
    hide First, Pairs;
    ClaimedBy(before, name, values, c.value);
    FirstIsClaimed(before, c.value);
    InPairs(name, values, c.second, c.value);
  }

  /** One module's values of one kind, against the owners known so far. */
  method ClaimAll(kind: Kind, name: string, values: seq<string>, known: map<string, string>, ghost before: seq<Claim>)
      returns (owner: map<string, string>, conflicts: seq<Conflict>)
    requires Records(known, before)
    ensures Records(owner, before + Pairs(name, values))
    ensures forall c :: c in conflicts <==> IsNew(kind, before, name, values, c)
  {
    hide First;
    owner, conflicts := known, [];
    for i := 0 to |values|
      invariant forall v :: FirstOrOwn(before, name, values[..i], v) == if v in owner then Some(owner[v]) else None
      invariant forall c :: c in conflicts <==> IsNew(kind, before, name, values[..i], c)
    {
      var v := values[i];
      assert values[..i + 1] == values[..i] + [v];
      if v in owner && owner[v] != name {
        conflicts := conflicts + [Conflict(kind, v, owner[v], name)];
      } else {
        owner := owner[v := name];
      }
    }
    assert values[..|values|] == values;
    forall v ensures First(before + Pairs(name, values), v) == if v in owner then Some(owner[v]) else None {
      ClaimedBy(before, name, values, v);
    }
  }

  ghost predicate Reported(modules: seq<Module>, conflicts: seq<Conflict>) {
    forall c :: c in conflicts <==> IsConflict(Claims(modules, c.kind), c)
  }

  lemma {:induction false} ReportedGrows(modules: seq<Module>, m: Module, before: seq<Conflict>, t: seq<Conflict>,
                                         r: seq<Conflict>, s: seq<Conflict>)
    requires Reported(modules, before)
    requires forall c :: c in t <==> IsNew(Table, Claims(modules, Table), m.name, m.tables, c)
    requires forall c :: c in r <==> IsNew(Route, Claims(modules, Route), m.name, m.routes, c)
    requires forall c :: c in s <==> IsNew(Service, Claims(modules, Service), m.name, m.services, c)
    ensures Reported(modules + [m], before + t + r + s)
  {
    hide First, IsConflict, Claims;
    forall c ensures c in before + t + r + s <==> IsConflict(Claims(modules + [m], c.kind), c) {
      ClaimsGrow(modules, m, c.kind);
      ConflictsGrow(c.kind, Claims(modules, c.kind), m.name, Owned(m, c.kind), c);
    }
  }

  lemma {:induction false} ClaimsGrow(modules: seq<Module>, m: Module, kind: Kind)
    ensures Claims(modules + [m], kind) == Claims(modules, kind) + Pairs(m.name, Owned(m, kind))
  {
    assert (modules + [m])[..|modules|] == modules;
  }

  /** detect_conflicts: exactly the values declared under two names are reported. */
  method DetectConflicts(modules: seq<Module>) returns (conflicts: seq<Conflict>)
    ensures Reported(modules, conflicts)
    ensures forall kind, v :: (exists c: Conflict :: c in conflicts && c.kind == kind && c.value == v)
                              <==> Shared(modules, kind, v)
    ensures conflicts == [] <==> forall kind, v :: !Shared(modules, kind, v)
  {
    hide First, IsConflict, Claims, Reported, Shared;
    var tables, routes, services := map[], map[], map[];
    conflicts := [];
    NothingReported();
    assert modules[..0] == [];
    for i := 0 to |modules|
      invariant Records(tables, Claims(modules[..i], Table)) && Records(routes, Claims(modules[..i], Route))
      invariant Records(services, Claims(modules[..i], Service))
      invariant Reported(modules[..i], conflicts)
    {
      var m := modules[i];
      ghost var seen := modules[..i];
      var t, r, s;
      tables, t := ClaimAll(Table, m.name, m.tables, tables, Claims(seen, Table));
      routes, r := ClaimAll(Route, m.name, m.routes, routes, Claims(seen, Route));
      services, s := ClaimAll(Service, m.name, m.services, services, Claims(seen, Service));
      ReportedGrows(seen, m, conflicts, t, r, s);
      ClaimsGrow(seen, m, Table);
      ClaimsGrow(seen, m, Route);
      ClaimsGrow(seen, m, Service);
      assert modules[..i + 1] == seen + [m];
      conflicts := conflicts + t + r + s;
    }
    assert modules[..|modules|] == modules;
    ReportMeansShared(modules, conflicts);
  }

  lemma {:induction false} NothingReported()
    ensures Reported([], []) && forall kind :: Records(map[], Claims([], kind))
  {
  }

  lemma {:induction false} ReportMeansShared(modules: seq<Module>, conflicts: seq<Conflict>)
    requires Reported(modules, conflicts)
    ensures forall kind, v :: (exists c: Conflict :: c in conflicts && c.kind == kind && c.value == v)
                              <==> Shared(modules, kind, v)
    ensures conflicts == [] <==> forall kind, v :: !Shared(modules, kind, v)
  {
    hide First, IsConflict, Claims, Shared;
    forall kind, v
      ensures (exists c: Conflict :: c in conflicts && c.kind == kind && c.value == v) <==> Shared(modules, kind, v)
    {
      ConflictMeansShared(modules, kind, v);
      forall c: Conflict | c.kind == kind ensures c in conflicts <==> IsConflict(Claims(modules, kind), c) {
      }
    }
    if conflicts != [] {
      assert conflicts[0] in conflicts;
      assert Shared(modules, conflicts[0].kind, conflicts[0].value);
    }
  }

  /** The order of the modules, and repeating one, do not matter. */
  lemma {:induction false} SharingIgnoresOrder(a: seq<Module>, b: seq<Module>, kind: Kind, v: string)
    requires forall m :: m in a <==> m in b
    ensures Shared(a, kind, v) <==> Shared(b, kind, v)
  {
  }

  // ---------- The check of module_governance_guard ----------

  const SERVICES_DIR := "src/edu_cloud/services"

  function Replace(s: string, from: char, to: char): (r: string)
    ensures |r| == |s| && forall i :: 0 <= i < |s| ==> r[i] == if s[i] == from then to else s[i]
  {
    seq(|s|, i requires 0 <= i < |s| => if s[i] == from then to else s[i])
  }

  predicate EndsWith(s: string, end: string) { |end| <= |s| && s[|s| - |end|..] == end }

  function DropDotSlash(s: string): (r: string)
    ensures |r| <= |s| && !("./" <= r) && (!("./" <= s) ==> r == s)
  {
    if "./" <= s then DropDotSlash(s[2..]) else s
  }

  function WithPy(s: string): string { if EndsWith(s, ".py") then s else s + ".py" }

  /** A name without the services package in front. */
  function Unqualified(n: string): string {
    if "edu_cloud.services." <= n then n[|"edu_cloud.services."|..]
    else if "services." <= n then n[|"services."|..]
    else n
  }

  /** The package goes in either spelling, and nothing else. */
  lemma {:induction false} UnqualifiedMeans(n: string)
    ensures Unqualified("edu_cloud.services." + n) == n && Unqualified("services." + n) == n
    ensures Unqualified(n) == n || n == "edu_cloud.services." + Unqualified(n) || n == "services." + Unqualified(n)
  {
    assert ("services." + n)[0] != "edu_cloud.services."[0];
  }

  /** A dotted module name, below the services package if it says so. */
  function FromDotted(s: string): string { SERVICES_DIR + "/" + WithPy(Replace(Unqualified(s), '.', '/')) }

  /** The text without blanks around it, with slashes for backslashes and without a leading "./". */
  function Cleaned(raw: string): string { DropDotSlash(Replace(Strip(raw), '\\', '/')) }

  /** _normalize_owned_service_path, for a value that is a string. */
  function NormalizeService(raw: string): Option<string> {
    var s := Cleaned(raw);
    if Strip(raw) == "" then None
    else
      var path := if "edu_cloud/services/" <= s then "src/" + s
                  else if "services/" <= s then SERVICES_DIR + "/" + s[|"services/"|..]
                  else if '/' !in s then FromDotted(s)
                  else WithPy(s);
      if SERVICES_DIR + "/" <= path then Some(path) else None
  }

  /** The name a service is compared under: its path, or as it stands if it is none. */
  function ServiceKey(raw: string): string {
    var path := NormalizeService(raw);
    if path.Some? then path.value else raw
  }

  function Keys(services: seq<string>): (r: seq<string>)
    ensures |r| == |services| && forall i :: 0 <= i < |r| ==> r[i] == ServiceKey(services[i])
  {
    seq(|services|, i requires 0 <= i < |services| => ServiceKey(services[i]))
  }

  function Keyed(modules: seq<Module>): (r: seq<Module>)
    ensures |r| == |modules|
    ensures forall i :: 0 <= i < |r| ==> r[i] == modules[i].(services := Keys(modules[i].services))
  {
    seq(|modules|, i requires 0 <= i < |modules| => modules[i].(services := Keys(modules[i].services)))
  }

  /** check_ownership_conflicts, unless switched off: as above, with services compared by their paths. */
  method CheckOwnershipConflicts(killSwitch: bool, modules: seq<Module>) returns (conflicts: seq<Conflict>)
    ensures killSwitch ==> conflicts == []
    ensures !killSwitch ==> Reported(Keyed(modules), conflicts)
    ensures !killSwitch ==> (conflicts == [] <==> forall kind, v :: !Shared(Keyed(modules), kind, v))
  {
    if killSwitch { return []; }
    conflicts := DetectConflicts(Keyed(modules));
  }

  /** Different spellings of one service: they have one path, or one is the path of the other, which has none. */
  ghost predicate OneService(s: string, t: string) {
    && s != t
    && ((NormalizeService(s).Some? && NormalizeService(s) == NormalizeService(t))
        || (NormalizeService(s) == Some(t) && NormalizeService(t) == None)
        || (NormalizeService(t) == Some(s) && NormalizeService(s) == None))
  }

  lemma {:induction false} KeysAgree(s: string, t: string)
    ensures OneService(s, t) <==> s != t && ServiceKey(s) == ServiceKey(t)
  {
    hide NormalizeService;
  }

  /** Two modules of different names write one service in two ways. */
  ghost predicate SharedInDisguise(modules: seq<Module>) {
    exists a, b, s, t ::
      a in modules && b in modules && a.name != b.name && s in a.services && t in b.services && OneService(s, t)
  }

  ghost predicate AnyShared(modules: seq<Module>) { exists kind, v :: Shared(modules, kind, v) }

  lemma {:induction false} InKeyed(modules: seq<Module>, m: Module)
    requires m in modules
    ensures m.(services := Keys(m.services)) in Keyed(modules)
  {
    var i :| 0 <= i < |modules| && modules[i] == m;
    assert Keyed(modules)[i] == m.(services := Keys(m.services));
  }

  lemma {:induction false} OfKeyed(modules: seq<Module>, k: Module) returns (m: Module)
    requires k in Keyed(modules)
    ensures m in modules && k == m.(services := Keys(m.services))
  {
    var i :| 0 <= i < |modules| && Keyed(modules)[i] == k;
    m := modules[i];
  }

  lemma {:induction false} SharedIsKept(modules: seq<Module>, kind: Kind, v: string)
    requires Shared(modules, kind, v)
    ensures AnyShared(Keyed(modules))
  {
    hide ServiceKey, Keys, Keyed;
    var a, b :| a in modules && b in modules && a.name != b.name && v in Owned(a, kind) && v in Owned(b, kind);
    InKeyed(modules, a);
    InKeyed(modules, b);
    var ka, kb := a.(services := Keys(a.services)), b.(services := Keys(b.services));
    if kind == Service {
      KeyOf(a.services, v);
      KeyOf(b.services, v);
      assert ServiceKey(v) in Owned(ka, Service) && ServiceKey(v) in Owned(kb, Service);
      assert Shared(Keyed(modules), Service, ServiceKey(v));
    } else {
      assert v in Owned(ka, kind) && v in Owned(kb, kind);
      assert Shared(Keyed(modules), kind, v);
    }
  }

  lemma {:induction false} KeyOf(services: seq<string>, v: string)
    requires v in services
    ensures ServiceKey(v) in Keys(services)
  {
    var i :| 0 <= i < |services| && services[i] == v;
    assert Keys(services)[i] == ServiceKey(v);
  }

  lemma {:induction false} DisguiseIsShared(modules: seq<Module>)
    requires SharedInDisguise(modules)
    ensures AnyShared(Keyed(modules))
  {
    hide ServiceKey, OneService, Keys, Keyed;
    var a, b, s, t :|
      a in modules && b in modules && a.name != b.name && s in a.services && t in b.services && OneService(s, t);
    KeysAgree(s, t);
    InKeyed(modules, a);
    InKeyed(modules, b);
    var ka, kb := a.(services := Keys(a.services)), b.(services := Keys(b.services));
    KeyOf(a.services, s);
    KeyOf(b.services, t);
    assert ServiceKey(s) in Owned(ka, Service) && ServiceKey(s) in Owned(kb, Service);
    assert Shared(Keyed(modules), Service, ServiceKey(s));
  }

  lemma {:induction false} KeyFrom(services: seq<string>, v: string) returns (s: string)
    requires v in Keys(services)
    ensures s in services && ServiceKey(s) == v
  {
    var i :| 0 <= i < |services| && Keys(services)[i] == v;
    s := services[i];
  }

  lemma {:induction false} ServiceComesFrom(modules: seq<Module>, a: Module, b: Module, v: string)
    requires a in modules && b in modules && a.name != b.name && v in Keys(a.services) && v in Keys(b.services)
    ensures AnyShared(modules) || SharedInDisguise(modules)
  {
    hide ServiceKey, OneService, Keys;
    var s := KeyFrom(a.services, v);
    var t := KeyFrom(b.services, v);
    KeysAgree(s, t);
    if s == t {
      assert s in Owned(a, Service) && s in Owned(b, Service);
      assert Shared(modules, Service, s);
    }
  }

  lemma {:induction false} SharedComesFrom(modules: seq<Module>, kind: Kind, v: string)
    requires Shared(Keyed(modules), kind, v)
    ensures AnyShared(modules) || SharedInDisguise(modules)
  {
    hide ServiceKey, Keys, Keyed, SharedInDisguise;
    var ka, kb :| ka in Keyed(modules) && kb in Keyed(modules) && ka.name != kb.name
      && v in Owned(ka, kind) && v in Owned(kb, kind);
    var a := OfKeyed(modules, ka);
    var b := OfKeyed(modules, kb);
    if kind == Service {
      ServiceComesFrom(modules, a, b, v);
    } else {
      assert v in Owned(a, kind) && v in Owned(b, kind);
      assert Shared(modules, kind, v);
    }
  }

  /** The guard blocks exactly what the aggregation reports, and two spellings of one service path besides. */
  lemma {:induction false} GuardIsStricter(modules: seq<Module>)
    ensures AnyShared(Keyed(modules)) <==> AnyShared(modules) || SharedInDisguise(modules)
  {
    hide Shared, SharedInDisguise, Keyed;
    if AnyShared(modules) {
      var kind, v :| Shared(modules, kind, v);
      SharedIsKept(modules, kind, v);
    }
    if SharedInDisguise(modules) { DisguiseIsShared(modules); }
    if AnyShared(Keyed(modules)) {
      var kind, v :| Shared(Keyed(modules), kind, v);
      SharedComesFrom(modules, kind, v);
    }
  }

  /** So the two checks agree when every service path is written in its normal form. */
  lemma {:induction false} ChecksAgreeOnNormalForms(modules: seq<Module>)
    requires forall m, s :: m in modules && s in m.services ==> NormalizeService(s) == Some(s)
    ensures AnyShared(Keyed(modules)) <==> AnyShared(modules)
  {
    hide NormalizeService, Shared;
    GuardIsStricter(modules);
  }

  /** A path below the services directory is only trimmed, its backslashes turned, and its ending added. */
  lemma {:induction false} BelowServices(s: string)
    requires SERVICES_DIR + "/" <= s
    ensures var path := WithPy(Replace(Strip(s), '\\', '/'));
      NormalizeService(s) == if SERVICES_DIR + "/" <= path then Some(path) else None
  {
    hide Strip, EndsWith;
    assert s[0] == 's' && s[1] == 'r' && s[3] == '/' by {
      assert SERVICES_DIR[0] == 's' && SERVICES_DIR[1] == 'r' && SERVICES_DIR[3] == '/';
      assert s[..|SERVICES_DIR|] == SERVICES_DIR;
    }
    var i, j := StripTrims(s);
    assert !IsSpace('s') && !IsSpace('/');
    assert i == 0 && j > 3;
    var t := Replace(Strip(s), '\\', '/');
    assert t[0] == 's' && t[1] == 'r' && t[3] == '/';
    assert !("./" <= t) by { assert "./"[0] == '.'; }
    assert !("edu_cloud/services/" <= t) by { assert "edu_cloud/services/"[0] == 'e'; }
    assert !("services/" <= t) by { assert "services/"[1] == 'e'; }
  }

  lemma {:induction false} BelowIsTrimmed(s: string)
    requires SERVICES_DIR + "/" <= s && EndsWith(s, ".py")
    ensures Strip(s) == s
  {
    hide Strip;
    StripsToItself(s);
    assert s[0] == 's' by { assert s[..|SERVICES_DIR|] == SERVICES_DIR && SERVICES_DIR[0] == 's'; }
    assert s[|s| - 1] == ".py"[2];
    assert !IsSpace('s') && !IsSpace('y');
  }

  lemma {:induction false} PyOnly(s: string)
    ensures WithPy(s) == s <==> EndsWith(s, ".py")
    ensures EndsWith(WithPy(s), ".py") && s <= WithPy(s)
  {
  }

  lemma {:induction false} NoBackslashLeft(s: string)
    ensures Replace(s, '\\', '/') == s <==> '\\' !in s
    ensures '\\' !in Replace(s, '\\', '/')
  {
    if Replace(s, '\\', '/') == s {
      forall i | 0 <= i < |s| ensures s[i] != '\\' { assert Replace(s, '\\', '/')[i] != '\\'; }
    }
  }

  /** A path in normal form: below the services directory, ending in .py, no blanks around it and no backslash. */
  lemma {:induction false} NormalForms(s: string)
    ensures NormalizeService(s) == Some(s)
            <==> SERVICES_DIR + "/" <= s && EndsWith(s, ".py") && Strip(s) == s && '\\' !in s
  {
    hide NormalizeService, Strip, EndsWith, WithPy, Replace;
    ResultIsBelow(s);
    if SERVICES_DIR + "/" <= s {
      BelowServices(s);
      NoBackslashLeft(s);
      PyOnly(Replace(Strip(s), '\\', '/'));
      PyOnly(s);
      if EndsWith(s, ".py") { BelowIsTrimmed(s); }
    }
  }

  lemma {:induction false} ResultIsBelow(s: string)
    ensures NormalizeService(s).Some? ==> SERVICES_DIR + "/" <= NormalizeService(s).value
  {
    hide Strip, DropDotSlash, Replace, FromDotted, WithPy;
  }

  // ---------- Names without a slash ----------

  lemma {:induction false} PyHasDot(s: string)
    ensures EndsWith(s, ".py") ==> '.' in s
  {
    if EndsWith(s, ".py") { assert s[|s| - 3] == ".py"[0]; }
  }

  lemma {:induction false} NoDotNoPy(s: string)
    requires '.' !in s
    ensures WithPy(s) == s + ".py"
  {
    PyHasDot(s);
  }

  lemma {:induction false} WithPyEnds(s: string)
    ensures EndsWith(WithPy(s), ".py")
  {
  }

  lemma {:induction false} SameFront(x: string, y: string, end: string)
    ensures x + end == y + end <==> x == y
  {
    if x + end == y + end { assert x == (x + end)[..|x|] && y == (y + end)[..|y|]; }
  }

  lemma {:induction false} DottedPath(n: string)
    ensures FromDotted(n) == SERVICES_DIR + "/" + (Replace(Unqualified(n), '.', '/') + ".py")
  {
    NoDotNoPy(Replace(Unqualified(n), '.', '/'));
  }

  lemma {:induction false} SameTail(x: string, y: string)
    ensures SERVICES_DIR + "/" + x == SERVICES_DIR + "/" + y <==> x == y
  {
    var d := SERVICES_DIR + "/";
    assert (d + x)[|d|..] == x && (d + y)[|d|..] == y;
  }

  /** The dots of a name decide: with one, the path is not that of a file of this name. */
  lemma {:induction false} DotsDecide(n: string)
    ensures Replace(Unqualified(n), '.', '/') + ".py" == WithPy(n) <==> '.' !in n
  {
    var r := Replace(Unqualified(n), '.', '/');
    SameFront(r, n, ".py");
    PyHasDot(n);
    if '.' !in n {
      assert "services."[8] == '.' && "edu_cloud.services."[9] == '.';
      assert Unqualified(n) == n && r == n;
    } else {
      assert '.' !in r;
      assert |"services."| == 9 && |"edu_cloud.services."| == 19;
      assert |r| == |n| || |r| == |n| - 9 || |r| == |n| - 19;
    }
  }

  /** A name without a slash is always read as a dotted module name, so it leads to the file of that name exactly when
      it has no dot: never for a name that already ends in .py. */
  lemma {:induction false} BareNames(raw: string)
    requires Strip(raw) != "" && '/' !in Cleaned(raw)
    ensures NormalizeService(raw) == Some(FromDotted(Cleaned(raw)))
    ensures NormalizeService(raw) == Some(SERVICES_DIR + "/" + WithPy(Cleaned(raw))) <==> '.' !in Cleaned(raw)
  {
    hide Strip, Cleaned, WithPy;
    var n := Cleaned(raw);
    assert "services/"[8] == '/' && "edu_cloud/services/"[9] == '/';
    assert !("services/" <= n) && !("edu_cloud/services/" <= n);
    SameTail(Replace(Unqualified(n), '.', '/') + ".py", WithPy(n));
    DottedPath(n);
    DotsDecide(n);
  }

  /** A text with nothing to clean. */
  lemma {:induction false} CleanedIs(s: string)
    requires s != "" && !IsSpace(s[0]) && !IsSpace(s[|s| - 1]) && '\\' !in s && s[0] != '.'
    ensures Strip(s) == s && Cleaned(s) == s
  {
    StripsToItself(s);
    assert Replace(s, '\\', '/') == s;
    assert !("./" <= s) by { assert "./"[0] == '.'; }
  }

  /** So the file name a.py becomes a path of its own making. */
  lemma {:induction false} BareFileName()
    ensures NormalizeService("a.py") == Some(SERVICES_DIR + "/" + ("a/py" + ".py"))
  {
    var s := "a.py";
    assert s[0] == 'a' && s[3] == 'y' && |s| == 4 && '/' !in s && '\\' !in s && !IsSpace('a') && !IsSpace('y');
    hide NormalizeService, Cleaned, Strip, IsSpace, FromDotted, WithPy, EndsWith;
    CleanedIs(s);
    BareNames(s);
    DottedPath(s);
    ShortIsUnqualified(s);
    assert Replace(s, '.', '/') == "a/py";
  }

  lemma {:induction false} ShortIsUnqualified(n: string)
    requires |n| < 9
    ensures Unqualified(n) == n
  {
    assert |"services."| == 9 && |"edu_cloud.services."| == 19;
  }

  // ---------- Normalising twice ----------

  lemma {:induction false} DropIsSuffix(t: string)
    ensures DropDotSlash(t) == t[|t| - |DropDotSlash(t)|..]
  {
    if "./" <= t { DropIsSuffix(t[2..]); }
  }

  /** A cleaned text has no backslash and no blank at its end. */
  lemma {:induction false} CleanedEnd(raw: string)
    ensures var s := Cleaned(raw); '\\' !in s && (s != "" ==> !IsSpace(s[|s| - 1]))
  {
    var i, j := StripTrims(raw);
    var t := Replace(Strip(raw), '\\', '/');
    DropIsSuffix(t);
    hide Strip, IsSpace;
    assert !IsSpace('/') by { SlashIsNoSpace(); }
    var s := Cleaned(raw);
    if s != "" {
      assert s[|s| - 1] == t[|t| - 1];
      assert Strip(raw)[|t| - 1] == raw[j - 1];
    }
  }

  lemma {:induction false} SlashIsNoSpace()
    ensures !IsSpace('/') && !IsSpace('s') && !IsSpace('y')
  {
  }

  /** A text that already names the services directory in part keeps its ending. */
  predicate Partial(s: string) { "edu_cloud/services/" <= s || "services/" <= s }

  lemma {:induction false} PackagePath(s: string)
    requires "edu_cloud/services/" <= s
    ensures SERVICES_DIR + "/" <= "src/" + s
  {
    var d, e := SERVICES_DIR + "/", "edu_cloud/services/";
    assert d == "src/" + e;
    assert s == e + s[|e|..];
    assert "src/" + s == d + s[|e|..];
  }

  lemma {:induction false} ServicesPath(s: string)
    requires "services/" <= s
    ensures SERVICES_DIR + "/" + s[|"services/"|..] == "src/edu_cloud/" + s
    ensures SERVICES_DIR + "/" <= "src/edu_cloud/" + s
  {
    var d, e := SERVICES_DIR + "/", "services/";
    assert d == "src/edu_cloud/" + e;
    assert s == e + s[|e|..];
    assert "src/edu_cloud/" + s == d + s[|e|..];
  }

  lemma {:induction false} PartialPath(raw: string)
    requires Strip(raw) != "" && Partial(Cleaned(raw))
    ensures var s := Cleaned(raw);
      NormalizeService(raw) == Some((if "edu_cloud/services/" <= s then "src/" else "src/edu_cloud/") + s)
  {
    hide Strip, Cleaned, FromDotted, WithPy;
    var s := Cleaned(raw);
    if "edu_cloud/services/" <= s { PackagePath(s); } else { ServicesPath(s); }
  }

  lemma {:induction false} OtherPath(raw: string)
    requires NormalizeService(raw).Some? && !Partial(Cleaned(raw))
    ensures EndsWith(NormalizeService(raw).value, ".py")
    ensures '/' !in Cleaned(raw) || NormalizeService(raw).value == WithPy(Cleaned(raw))
  {
    hide Strip, Cleaned, WithPy, EndsWith;
    WithPyEnds(Cleaned(raw));
    if '/' !in Cleaned(raw) { NoSlashPath(raw); }
  }

  lemma {:induction false} NoSlashPath(raw: string)
    requires NormalizeService(raw).Some? && '/' !in Cleaned(raw)
    ensures EndsWith(NormalizeService(raw).value, ".py")
  {
    hide NormalizeService, Strip, Cleaned, FromDotted, EndsWith, Replace, Unqualified, WithPy;
    NoBlank(raw);
    BareNames(raw);
    DottedPath(Cleaned(raw));
    EndsInPy(SERVICES_DIR + "/", Replace(Unqualified(Cleaned(raw)), '.', '/'));
  }

  lemma {:induction false} EndsInPy(d: string, x: string)
    ensures EndsWith(d + (x + ".py"), ".py")
  {
  }

  lemma {:induction false} PyEnds(s: string)
    requires EndsWith(s, ".py")
    ensures s != "" && s[|s| - 1] == 'y' && !IsSpace(s[|s| - 1])
  {
    assert s[|s| - 1] == ".py"[2];
  }

  /** The result has no blank around it and no backslash. */
  lemma {:induction false} ResultIsTrimmed(raw: string)
    requires NormalizeService(raw).Some?
    ensures var p := NormalizeService(raw).value; Strip(p) == p && '\\' !in p
  {
    var p := NormalizeService(raw).value;
    ResultIsBelow(raw);
    CleanedEnd(raw);
    assert p[0] == 's' by { assert p[..|SERVICES_DIR|] == SERVICES_DIR && SERVICES_DIR[0] == 's'; }
    SlashIsNoSpace();
    StripsToItself(p);
    NoBackslash(raw);
    hide Strip, IsSpace, NormalizeService, Cleaned;
    if Partial(Cleaned(raw)) { PartialResult(raw); } else { OtherPath(raw); PyEnds(p); }
  }

  lemma {:induction false} EndOf(front: string, s: string)
    requires front != "" && s != ""
    ensures var p := front + s; |p| > |s| && p[|p| - |s|..] == s && p[|p| - 1] == s[|s| - 1]
  {
  }

  lemma {:induction false} PartialIsLong(s: string)
    requires Partial(s)
    ensures |s| > 3
  {
    assert |"edu_cloud/services/"| == 19 && |"services/"| == 9;
  }

  lemma {:induction false} PartialResult(raw: string)
    requires NormalizeService(raw).Some? && Partial(Cleaned(raw))
    ensures var p, s := NormalizeService(raw).value, Cleaned(raw);
      |p| > |s| > 3 && p[|p| - |s|..] == s && p[|p| - 1] == s[|s| - 1]
  {
    hide NormalizeService, Strip, Cleaned, Partial;
    NoBlank(raw);
    PartialPath(raw);
    PartialIsLong(Cleaned(raw));
    EndOf("src/", Cleaned(raw));
    EndOf("src/edu_cloud/", Cleaned(raw));
  }

  lemma {:induction false} NoBlank(raw: string)
    requires NormalizeService(raw).Some?
    ensures Strip(raw) != ""
  {
  }

  lemma {:induction false} NoBackslash(raw: string)
    requires NormalizeService(raw).Some?
    ensures '\\' !in NormalizeService(raw).value
  {
    hide NormalizeService, Strip, Cleaned, IsSpace, Partial, WithPy, FromDotted;
    CleanedEnd(raw);
    NoBlank(raw);
    var s := Cleaned(raw);
    if Partial(s) {
      PartialPath(raw);
      assert '\\' !in "src/" && '\\' !in "src/edu_cloud/";
    } else {
      OtherPath(raw);
      if '/' !in s { BareNames(raw); DottedNoBackslash(s); } else { WithPyNoBackslash(s); }
    }
  }

  lemma {:induction false} DottedNoBackslash(s: string)
    requires '\\' !in s
    ensures '\\' !in FromDotted(s)
  {
    hide Replace;
    assert '\\' !in SERVICES_DIR + "/";
    WithPyNoBackslash(Replace(Unqualified(s), '.', '/'));
  }

  lemma {:induction false} WithPyNoBackslash(s: string)
    requires '\\' !in s
    ensures '\\' !in WithPy(s)
  {
  }

  /** A result is a normal form exactly when it ends in .py, and that fails exactly for a text that names the services
      directory in part and lacks the ending; normalising such a result again adds it. */
  lemma {:induction false} NormalisedTwice(raw: string)
    requires NormalizeService(raw).Some?
    ensures var p, s := NormalizeService(raw).value, Cleaned(raw);
      && (NormalizeService(p) == Some(p) <==> EndsWith(p, ".py"))
      && (EndsWith(p, ".py") <==> !Partial(s) || EndsWith(s, ".py"))
      && NormalizeService(p) == Some(WithPy(p))
  {
    hide Strip, NormalizeService, Cleaned, IsSpace, Partial;
    var p, s := NormalizeService(raw).value, Cleaned(raw);
    ResultIsBelow(raw);
    ResultIsTrimmed(raw);
    BelowServices(p);
    assert Replace(p, '\\', '/') == p;
    assert SERVICES_DIR + "/" <= WithPy(p);
    if Partial(s) { PartialResult(raw); } else { OtherPath(raw); }
  }

  const PACKAGE_DIR := "edu_cloud/services/"

  lemma {:induction false} PackageText(name: string)
    requires name != "" && !IsSpace(name[|name| - 1]) && '\\' !in name
    ensures var s := PACKAGE_DIR + name; Strip(s) == s && Cleaned(s) == s && Partial(s)
  {
    hide Strip, Cleaned;
    var s := PACKAGE_DIR + name;
    assert s[0] == PACKAGE_DIR[0] == 'e' && s[|s| - 1] == name[|name| - 1];
    assert !IsSpace('e') && '\\' !in PACKAGE_DIR;
    hide IsSpace;
    CleanedIs(s);
  }

  lemma {:induction false} OneLetterIsNoPy(front: string)
    ensures !EndsWith(front + "a", ".py")
  {
    var s := front + "a";
    assert s[|s| - 1] == 'a';
    if EndsWith(s, ".py") { PyEnds(s); }
  }

  /** A module named without its ending: the result is no normal form, and normalising again changes it. */
  lemma {:induction false} UnfinishedPath()
    ensures var s := PACKAGE_DIR + "a";
      NormalizeService(s) == Some("src/" + s) && NormalizeService("src/" + s) == Some("src/" + s + ".py")
  {
    assert "a"[0] == 'a' && !IsSpace('a');
    hide NormalizeService, Cleaned, Strip, EndsWith, IsSpace, Partial;
    var s := PACKAGE_DIR + "a";
    PackageText("a");
    PartialPath(s);
    assert PACKAGE_DIR <= s;
    NormalisedTwice(s);
    OneLetterIsNoPy("src/" + PACKAGE_DIR);
    Associate("src/", PACKAGE_DIR, "a");
  }

  // ---------- Ownership of workflow services ----------

  /** An entry of the owned services: a string, or some other value. */
  datatype Entry = Text(text: string) | Other

  /** The owned services of a module: a list, or some other value. */
  datatype Services = Listed(entries: seq<Entry>) | NotAList

  datatype Declarer = Declarer(name: Option<string>, services: Services)

  datatype Invalid = MustBeList(owner: string) | BadEntry(owner: string, entry: Entry)

  function NameOf(m: Declarer): string { if m.name.Some? && m.name.value != "" then m.name.value else "?" }

  function PathOf(e: Entry): Option<string> { if e.Text? then NormalizeService(e.text) else None }

  /** The owner written down once for every entry of the list that means this path. */
  function ByEntries(entries: seq<Entry>, owner: string, path: string): seq<string> {
    if entries == [] then []
    else ByEntries(entries[..|entries| - 1], owner, path)
         + if PathOf(entries[|entries| - 1]) == Some(path) then [owner] else []
  }

  /** All declarations of a path, in order, by the names of their modules. */
  function Declarations(modules: seq<Declarer>, path: string): seq<string> {
    if modules == [] then []
    else
      var m := modules[|modules| - 1];
      Declarations(modules[..|modules| - 1], path)
      + if m.services.Listed? then ByEntries(m.services.entries, NameOf(m), path) else []
  }

  ghost predicate EntriesValid(entries: seq<Entry>) {
    forall e :: e in entries ==> e.Text? && NormalizeService(e.text).Some?
  }

  ghost predicate AllValid(modules: seq<Declarer>) {
    forall m :: m in modules ==> m.services.Listed? && EntriesValid(m.services.entries)
  }

  // ---------- What a declaration is ----------

  /** The entry is a text that means the path. */
  ghost predicate Means(e: Entry, path: string) { e.Text? && NormalizeService(e.text) == Some(path) }

  ghost function MeaningAt(entries: seq<Entry>, path: string): set<int> {
    set j | 0 <= j < |entries| && Means(entries[j], path)
  }

  lemma {:induction false} ByEntriesCount(entries: seq<Entry>, owner: string, path: string)
    ensures |ByEntries(entries, owner, path)| == |MeaningAt(entries, path)|
    ensures forall o :: o in ByEntries(entries, owner, path) ==> o == owner
  {
    hide NormalizeService;
    if entries == [] {
      assert MeaningAt(entries, path) == {};
    } else {
      var n := |entries| - 1;
      ByEntriesCount(entries[..n], owner, path);
      assert MeaningAt(entries, path) == MeaningAt(entries[..n], path) + if Means(entries[n], path) then {n} else {};
    }
  }

  ghost function EntriesOf(m: Declarer): seq<Entry> { if m.services.Listed? then m.services.entries else [] }

  /** The places where a path is declared. */
  ghost function DeclaredPlaces(modules: seq<Declarer>, path: string): set<(int, int)> {
    set i, j | 0 <= i < |modules| && j in MeaningAt(EntriesOf(modules[i]), path) :: (i, j)
  }

  ghost function Paired(i: int, s: set<int>): set<(int, int)> { set j | j in s :: (i, j) }

  lemma {:induction false} SomeMember<T>(s: set<T>) returns (x: T)
    requires s != {}
    ensures x in s
  {
    x :| x in s;
  }

  lemma {:induction false} PairedSize(i: int, s: set<int>)
    ensures |Paired(i, s)| == |s|
    decreases |s|
  {
    if |s| == 0 {
      assert Paired(i, s) == {};
    } else {
      var x := SomeMember(s);
      PairedSize(i, s - {x});
      assert Paired(i, s) == Paired(i, s - {x}) + {(i, x)};
    }
  }

  lemma {:induction false} PlacesSplit(front: seq<Declarer>, m: Declarer, path: string)
    ensures |DeclaredPlaces(front + [m], path)| == |DeclaredPlaces(front, path)| + |MeaningAt(EntriesOf(m), path)|
  {
    hide MeaningAt, EntriesOf;
    var here := Paired(|front|, MeaningAt(EntriesOf(m), path));
    PairedSize(|front|, MeaningAt(EntriesOf(m), path));
    assert DeclaredPlaces(front + [m], path) == DeclaredPlaces(front, path) + here;
    assert DeclaredPlaces(front, path) !! here;
  }

  /** The name of one of the modules, or "?" for a module without one. */
  ghost predicate NamesOne(modules: seq<Declarer>, o: string) {
    exists i :: 0 <= i < |modules| && (modules[i].name == Some(o) || (o == "?" && modules[i].name in {None, Some("")}))
  }

  lemma {:induction false} NamesMore(front: seq<Declarer>, m: Declarer)
    ensures NamesOne(front + [m], NameOf(m))
    ensures forall o :: NamesOne(front, o) ==> NamesOne(front + [m], o)
  {
    assert (front + [m])[|front|] == m;
    forall o | NamesOne(front, o) ensures NamesOne(front + [m], o) {
      var i :| 0 <= i < |front| && (front[i].name == Some(o) || (o == "?" && front[i].name in {None, Some("")}));
      assert (front + [m])[i] == front[i];
    }
  }

  /** A path is declared once for each entry that means it, under the name of the module, or "?" if it has none. */
  lemma {:induction false} DeclarationsCount(modules: seq<Declarer>, path: string)
    ensures |Declarations(modules, path)| == |DeclaredPlaces(modules, path)|
    ensures forall o :: o in Declarations(modules, path) ==> NamesOne(modules, o)
  {
    hide ByEntries, MeaningAt, DeclaredPlaces, NamesOne, NameOf;
    if modules == [] {
      NoPlaces(path);
    } else {
      var front, m := modules[..|modules| - 1], modules[|modules| - 1];
      assert modules == front + [m];
      DeclarationsCount(front, path);
      ByEntriesCount(EntriesOf(m), NameOf(m), path);
      PlacesSplit(front, m, path);
      NamesMore(front, m);
      NothingWritten(NameOf(m), path);
    }
  }

  lemma {:induction false} NoPlaces(path: string)
    ensures DeclaredPlaces([], path) == {}
  {
  }

  lemma {:induction false} NothingWritten(owner: string, path: string)
    ensures ByEntries([], owner, path) == []
  {
  }

  function OwnersOf(owners: map<string, seq<string>>, path: string): seq<string> {
    if path in owners then owners[path] else []
  }

  /** The map has exactly the paths that are declared. */
  ghost predicate NoEmpty(owners: map<string, seq<string>>) { forall p :: p in owners ==> owners[p] != [] }

  /** The map r has the owners of before, and one more for each entry that means the path. */
  ghost predicate Extends(before: map<string, seq<string>>, entries: seq<Entry>, owner: string,
                          r: map<string, seq<string>>)
  {
    NoEmpty(r) && forall p :: OwnersOf(r, p) == OwnersOf(before, p) + ByEntries(entries, owner, p)
  }

  lemma {:induction false} ByEntriesNext(entries: seq<Entry>, e: Entry, owner: string, path: string)
    ensures ByEntries(entries + [e], owner, path)
            == ByEntries(entries, owner, path) + if PathOf(e) == Some(path) then [owner] else []
  {
    hide PathOf;
    assert (entries + [e])[..|entries|] == entries;
  }

  lemma {:induction false} ExtendsSkips(before: map<string, seq<string>>, entries: seq<Entry>, owner: string,
                                        r: map<string, seq<string>>, e: Entry)
    requires Extends(before, entries, owner, r) && PathOf(e).None?
    ensures Extends(before, entries + [e], owner, r)
  {
    hide PathOf, ByEntries, OwnersOf;
    forall p ensures OwnersOf(r, p) == OwnersOf(before, p) + ByEntries(entries + [e], owner, p) {
      ByEntriesNext(entries, e, owner, p);
      assert ByEntries(entries, owner, p) + [] == ByEntries(entries, owner, p);
    }
  }

  lemma {:induction false} ExtendsAdds(before: map<string, seq<string>>, entries: seq<Entry>, owner: string,
                                       r: map<string, seq<string>>, e: Entry, path: string)
    requires Extends(before, entries, owner, r) && PathOf(e) == Some(path)
    ensures Extends(before, entries + [e], owner, r[path := OwnersOf(r, path) + [owner]])
  {
    hide PathOf, ByEntries;
    var after := r[path := OwnersOf(r, path) + [owner]];
    forall p ensures OwnersOf(after, p) == OwnersOf(before, p) + ByEntries(entries + [e], owner, p) {
      ByEntriesNext(entries, e, owner, p);
      Associate(OwnersOf(before, p), ByEntries(entries, owner, p), if p == path then [owner] else []);
      assert OwnersOf(r, p) + [] == OwnersOf(r, p);
    }
  }

  lemma {:induction false} ExtendsNothing(before: map<string, seq<string>>, owner: string)
    requires NoEmpty(before)
    ensures Extends(before, [], owner, before)
  {
    forall p ensures OwnersOf(before, p) == OwnersOf(before, p) + ByEntries([], owner, p) {
      assert ByEntries([], owner, p) == [];
    }
  }

  method AddEntries(owners: map<string, seq<string>>, owner: string, entries: seq<Entry>)
      returns (r: map<string, seq<string>>, invalid: seq<Invalid>)
    requires NoEmpty(owners)
    ensures Extends(owners, entries, owner, r)
    ensures invalid == [] <==> EntriesValid(entries)
  {
    hide Extends, OwnersOf, NormalizeService;
    r, invalid := owners, [];
    ExtendsNothing(owners, owner);
    for i := 0 to |entries|
      invariant Extends(owners, entries[..i], owner, r)
      invariant invalid == [] <==> EntriesValid(entries[..i])
    {
      var path := PathOf(entries[i]);
      assert entries[..i + 1] == entries[..i] + [entries[i]];
      if path.None? {
        ExtendsSkips(owners, entries[..i], owner, r, entries[i]);
        invalid := invalid + [BadEntry(owner, entries[i])];
      } else {
        ExtendsAdds(owners, entries[..i], owner, r, entries[i], path.value);
        r := r[path.value := OwnersOf(r, path.value) + [owner]];
      }
    }
    assert entries[..|entries|] == entries;
  }

  /** _service_ownership_map: every declaration of every path, in order, and whatever is no declaration. */
  method ServiceOwnershipMap(modules: seq<Declarer>)
      returns (owners: map<string, seq<string>>, invalid: seq<Invalid>)
    ensures NoEmpty(owners) && forall p :: OwnersOf(owners, p) == Declarations(modules, p)
    ensures invalid == [] <==> AllValid(modules)
  {
    hide ByEntries, EntriesValid;
    owners, invalid := map[], [];
    for i := 0 to |modules|
      invariant NoEmpty(owners) && forall p :: OwnersOf(owners, p) == Declarations(modules[..i], p)
      invariant invalid == [] <==> AllValid(modules[..i])
    {
      var m := modules[i];
      assert modules[..i + 1] == modules[..i] + [m];
      assert modules[..i + 1][..i] == modules[..i];
      match m.services {
        case NotAList => invalid := invalid + [MustBeList(NameOf(m))];
        case Listed(entries) =>
          var more;
          owners, more := AddEntries(owners, NameOf(m), entries);
          invalid := invalid + more;
      }
    }
    assert modules[..|modules|] == modules;
  }

  /** Every workflow file is declared exactly once, every declaration is valid, and none names a workflow file that is
      not there. */
  ghost predicate WellOwned(files: set<string>, modules: seq<Declarer>) {
    && AllValid(modules)
    && (forall f :: f in files ==> |Declarations(modules, f)| == 1)
    && (forall p :: EndsWith(p, "_workflow.py") && Declarations(modules, p) != [] ==> p in files)
  }

  /** The paths of a list that a test picks, in order. */
  function Picked(paths: seq<string>, test: string -> bool): (r: seq<string>)
    ensures forall p :: p in r <==> p in paths && test(p)
  {
    if paths == [] then [] else (if test(paths[0]) then [paths[0]] else []) + Picked(paths[1..], test)
  }

  /** check_workflow_service_ownership: without workflow files there is nothing to check. */
  method CheckWorkflowOwnership(killSwitch: bool, files: set<string>, modules: seq<Declarer>)
      returns (blocked: bool, missing: seq<string>, duplicate: seq<string>, stale: seq<string>)
    ensures !blocked <==> killSwitch || files == {} || WellOwned(files, modules)
    ensures blocked ==> forall p :: p in missing <==> p in files && Declarations(modules, p) == []
    ensures blocked ==> forall p :: p in duplicate <==> p in files && |Declarations(modules, p)| > 1
    ensures blocked ==>
      forall p :: p in stale <==> EndsWith(p, "_workflow.py") && Declarations(modules, p) != [] && p !in files
  {
    if killSwitch || files == {} { return false, [], [], []; }
    hide Declarations, AllValid, EndsWith, WellOwned;
    var owners, invalid := ServiceOwnershipMap(modules);
    var listed := InOrder(files);
    var declared := InOrder(owners.Keys);
    missing := Picked(listed, path => |OwnersOf(owners, path)| == 0);
    duplicate := Picked(declared, path => path in files && |OwnersOf(owners, path)| > 1);
    stale := Picked(declared, path => EndsWith(path, "_workflow.py") && path !in files);
    blocked := invalid != [] || missing != [] || duplicate != [] || stale != [];
    MapIsDeclarations(owners, modules);
    NothingAmiss(files, modules, missing, duplicate, stale);
  }

  lemma {:induction false} NothingAmiss(files: set<string>, modules: seq<Declarer>, missing: seq<string>,
                                        duplicate: seq<string>, stale: seq<string>)
    requires forall p :: p in missing <==> p in files && Declarations(modules, p) == []
    requires forall p :: p in duplicate <==> p in files && |Declarations(modules, p)| > 1
    requires forall p :: p in stale <==>
      (EndsWith(p, "_workflow.py") && Declarations(modules, p) != [] && p !in files)
    ensures WellOwned(files, modules) <==> AllValid(modules) && missing == [] && duplicate == [] && stale == []
  {
    hide Declarations, AllValid, EndsWith;
    NoMembers(missing);
    NoMembers(duplicate);
    NoMembers(stale);
    if missing == [] && duplicate == [] {
      forall f | f in files ensures |Declarations(modules, f)| == 1 {
        assert f !in missing && f !in duplicate;
      }
    }
  }

  lemma {:induction false} MapIsDeclarations(owners: map<string, seq<string>>, modules: seq<Declarer>)
    requires NoEmpty(owners) && forall p :: OwnersOf(owners, p) == Declarations(modules, p)
    ensures forall p :: p in owners <==> Declarations(modules, p) != []
  {
    hide Declarations;
    forall p ensures p in owners <==> Declarations(modules, p) != [] {
      assert OwnersOf(owners, p) == Declarations(modules, p);
    }
  }
}
