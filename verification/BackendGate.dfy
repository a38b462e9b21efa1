/**
 Which module gates a request path: the middleware's decision (src/edu_cloud/api/module_middleware.py), the check that
 models it (scripts/governance/check_module_semantics.py), and what a clean check says about every request.
 */
module BackendGate {
  import opened Ordering
  import opened Wrappers
  import opened ModuleGate

  /** The middleware's tables: prefixes that are never gated, and the module code of each gated prefix. */
  datatype Table = Table(exempt: seq<string>, codes: map<string, string>)

  datatype Gating = Exempt | Gated(code: string) | PassThrough
  {
    function Text(): string {
      match this
      case Exempt => "exempt"
      case Gated(code) => "gated:" + code
      case PassThrough => "pass-through"
    }
  }

  /** A prefix covers itself and every path below it, at a segment boundary. */
  predicate Covers(prefix: string, path: string) { path == prefix || prefix + "/" <= path }

  /** Longer texts are covered just below the segment boundary; "/api/v1/conductors" is not covered by "/api/v1/conduct". */
  lemma {:induction false} CoversAtBoundary(prefix: string, ch: char, rest: string)
    ensures Covers(prefix, prefix) && (Covers(prefix, prefix + [ch] + rest) <==> ch == '/')
  {
    var path := prefix + [ch] + rest;
    assert path[|prefix|] == ch && (prefix + "/")[|prefix|] == '/' && path != prefix;
    assert path[..|prefix + "/"|] == prefix + [ch];
  }

  /** Only extensions of the prefix are covered. */
  lemma {:induction false} CoveredExtends(prefix: string, path: string)
    requires Covers(prefix, path) && path != prefix
    ensures exists rest :: path == prefix + "/" + rest
  {
    assert path == prefix + "/" + path[|prefix| + 1..];
  }

  predicate IsExempt(t: Table, path: string) { exists p :: p in t.exempt && Covers(p, path) }

  // ---------- The reference: the nearest mapped ancestor ----------

  /** The nearest ancestor of the path, itself included, that is mapped: walking up from length n. */
  function NearestAncestor(keys: set<string>, path: string, n: nat): (r: Option<string>)
    requires n <= |path|
    ensures r.Some? ==> r.value in keys && Covers(r.value, path)
    ensures forall q :: q in keys && Covers(q, path) && |q| <= n ==> r.Some? && |q| <= |r.value|
  {
    if path[..n] in keys && Covers(path[..n], path) then Some(path[..n])
    else
      assert forall q :: q in keys && Covers(q, path) && |q| == n ==> q == path[..n];
      if n == 0 then None else NearestAncestor(keys, path, n - 1)
  }

  function GatingOf(t: Table, path: string): Gating {
    if IsExempt(t, path) then Exempt
    else match NearestAncestor(t.codes.Keys, path, |path|)
      case Some(p) => Gated(t.codes[p])
      case None => PassThrough
  }

  /** No two prefixes of one length cover a path: the longest is unique, so no order of the table matters. */
  lemma {:induction false} LongestIsNearest(keys: set<string>, path: string, p: string)
    requires p in keys && Covers(p, path) && forall q :: q in keys && Covers(q, path) ==> |q| <= |p|
    ensures NearestAncestor(keys, path, |path|) == Some(p)
  {
    var r := NearestAncestor(keys, path, |path|).value;
    assert |r| == |p| && r == path[..|r|] && p == path[..|p|];
  }

  // ---------- The code ----------

  predicate LongerFirst(a: string, b: string) { |a| >= |b| }

  /** In the order of falling length, the first prefix that covers the path is the longest that does. */
  lemma {:induction false} FirstCoveringIsNearest(path: string, keys: set<string>, sorted: seq<string>, i: nat)
    requires SortedBy(sorted, LongerFirst) && forall p :: p in sorted <==> p in keys
    requires i < |sorted| && Covers(sorted[i], path) && forall k :: 0 <= k < i ==> !Covers(sorted[k], path)
    ensures NearestAncestor(keys, path, |path|) == Some(sorted[i])
  {
    hide Covers, NearestAncestor;
    assert sorted[i] in sorted;
    forall q | q in keys && Covers(q, path) ensures |q| <= |sorted[i]| {
      assert q in sorted;
      var k :| 0 <= k < |sorted| && sorted[k] == q;
      assert k == i || LongerFirst(sorted[i], sorted[k]);
    }
    LongestIsNearest(keys, path, sorted[i]);
  }

  /** module_middleware._longest_prefix_match; `order` is the order in which the table happens to list its keys. */
  method LongestPrefixMatch(path: string, codes: map<string, string>, order: seq<string>) returns (r: Option<string>)
    requires forall p :: p in order <==> p in codes
    ensures r == match NearestAncestor(codes.Keys, path, |path|) case Some(p) => Some(codes[p]) case None => None
  {
    hide StableSort, TotalPreorder, Covers, SortedBy, NearestAncestor;
    LengthsArePreorder();
    StableSortSorts(LongerFirst, order);
    var sorted := StableSort(LongerFirst, order);
    for i := 0 to |sorted|
      invariant forall k :: 0 <= k < i ==> !Covers(sorted[k], path)
    {
      var p := sorted[i];
      assert p in sorted;
      if Covers(p, path) {
        FirstCoveringIsNearest(path, codes.Keys, sorted, i);
        return Some(codes[p]);
      }
    }
    assert forall q :: q in codes ==> q in sorted;
    return None;
  }

  lemma {:induction false} LengthsArePreorder()
    ensures TotalPreorder(LongerFirst)
  {
  }

  method CoveredByAny(prefixes: seq<string>, path: string) returns (found: bool)
    ensures found <==> exists p :: p in prefixes && Covers(p, path)
  {
    for i := 0 to |prefixes|
      invariant forall k :: 0 <= k < i ==> !Covers(prefixes[k], path)
    {
      if Covers(prefixes[i], path) { return true; }
    }
    return false;
  }

  /** The middleware: the module whose switch gates the path, or None to let it pass. */
  method ResolveModuleCode(t: Table, order: seq<string>, path: string) returns (r: Option<string>)
    requires forall p :: p in order <==> p in t.codes
    ensures r.Some? <==> GatingOf(t, path).Gated?
    ensures r.Some? ==> GatingOf(t, path) == Gated(r.value)
  {
    var exempt := CoveredByAny(t.exempt, path);
    if exempt { return None; }
    r := LongestPrefixMatch(path, t.codes, order);
  }

  /** The check's own copy of the decision, as the text it compares. */
  method ActualGating(t: Table, order: seq<string>, prefix: string) returns (state: string)
    requires forall p :: p in order <==> p in t.codes
    ensures state == GatingOf(t, prefix).Text()
  {
    var exempt := CoveredByAny(t.exempt, prefix);
    if exempt { return "exempt"; }
    var code := LongestPrefixMatch(prefix, t.codes, order);
    if code.Some? { return "gated:" + code.value; }
    return "pass-through";
  }

  lemma {:induction false} TextStart(g: Gating)
    ensures |g.Text()| > 0
    ensures (g.Gated? <==> g.Text()[0] == 'g') && (g.Exempt? <==> g.Text()[0] == 'e')
  {
    assert "exempt"[0] == 'e' && "pass-through"[0] == 'p' && "gated:"[0] == 'g';
  }

  lemma {:induction false} TextIsInjective(a: Gating, b: Gating)
    requires a.Text() == b.Text()
    ensures a == b
  {
    TextStart(a);
    TextStart(b);
    if a.Gated? && b.Gated? {
      assert a.code == a.Text()[6..];
      assert b.code == b.Text()[6..];
    }
  }

  /** The texts of the check stand for the three decisions. */
  lemma {:induction false} TextMeans(g: Gating, code: string)
    ensures g.Text() == "exempt" <==> g == Exempt
    ensures g.Text() == "gated:" + code <==> g == Gated(code)
    ensures g.Text() == "pass-through" <==> g == PassThrough
  {
    hide Gating.Text;
    KnownTexts(code);
    if g.Text() == "exempt" { TextIsInjective(g, Exempt); }
    if g.Text() == "gated:" + code { TextIsInjective(g, Gated(code)); }
    if g.Text() == "pass-through" { TextIsInjective(g, PassThrough); }
  }

  lemma {:induction false} KnownTexts(code: string)
    ensures Exempt.Text() == "exempt" && Gated(code).Text() == "gated:" + code && PassThrough.Text() == "pass-through"
  {
  }

  // ---------- From a prefix to the paths below it ----------

  lemma {:induction false} CoversIsTransitive(p: string, q: string, path: string)
    requires Covers(p, q) && Covers(q, path)
    ensures Covers(p, path)
  {
    if p != q && q != path {
      assert q[..|p| + 1] == p + "/" && path[..|q|] == q;
      assert path[..|p| + 1] == q[..|p| + 1];
    }
  }

  /** Two prefixes of one path: the shorter covers the longer. */
  lemma {:induction false} CoversIsLinear(p: string, q: string, path: string)
    requires Covers(p, path) && Covers(q, path) && |p| <= |q|
    ensures Covers(p, q)
  {
    assert path[..|p|] == p && path[..|q|] == q;
    if |p| == |q| {
      assert p == q;
    } else {
      assert path[..|p| + 1] == p + "/";
      assert q[..|p| + 1] == path[..|p| + 1];
    }
  }

  predicate IsEntry(t: Table, p: string) { p in t.exempt || p in t.codes }

  /** No entry of the table at or below the prefix is treated otherwise than the prefix. */
  ghost predicate EntriesBelowAgree(t: Table, prefix: string) {
    forall p :: IsEntry(t, p) && Covers(prefix, p) ==> GatingOf(t, p) == GatingOf(t, prefix)
  }

  /** A decision is that of the table entry at or above the path that makes it: its nearest deciding ancestor. */
  lemma {:induction false} DecidedByEntry(t: Table, path: string) returns (p: string)
    requires GatingOf(t, path) != PassThrough
    ensures IsEntry(t, p) && Covers(p, path) && GatingOf(t, p) == GatingOf(t, path)
    ensures IsExempt(t, path) ==> p in t.exempt
    ensures !IsExempt(t, path) ==> NearestAncestor(t.codes.Keys, path, |path|) == Some(p)
  {
    if IsExempt(t, path) {
      p :| p in t.exempt && Covers(p, path);
    } else {
      p := NearestAncestor(t.codes.Keys, path, |path|).value;
      if e :| e in t.exempt && Covers(e, p) { CoversIsTransitive(e, p, path); }
      LongestIsNearest(t.codes.Keys, p, p);
    }
  }

  /** The decision at an ancestor, when the deciding entry is at or above that ancestor. */
  lemma {:induction false} DecisionPassesUp(t: Table, path: string, prefix: string, p: string)
    requires Covers(prefix, path) && Covers(p, prefix) && !IsExempt(t, path)
    requires NearestAncestor(t.codes.Keys, path, |path|) == Some(p)
    ensures GatingOf(t, prefix) == Gated(t.codes[p])
  {
    hide Covers;
    if e :| e in t.exempt && Covers(e, prefix) { CoversIsTransitive(e, prefix, path); }
    forall q | q in t.codes && Covers(q, prefix) ensures |q| <= |p| {
      CoversIsTransitive(q, prefix, path);
      CoversShorter(q, path);
    }
    LongestIsNearest(t.codes.Keys, prefix, p);
  }

  lemma {:induction false} CoversShorter(p: string, path: string)
    requires Covers(p, path)
    ensures |p| <= |path|
  {
  }

  lemma {:induction false} NothingPassesUp(t: Table, path: string, prefix: string)
    requires Covers(prefix, path) && GatingOf(t, path) == PassThrough
    ensures GatingOf(t, prefix) == PassThrough
  {
    hide NearestAncestor;
    if GatingOf(t, prefix) != PassThrough {
      var p := DecidedByEntry(t, prefix);
      CoversIsTransitive(p, prefix, path);
      CoversShorter(p, path);
    }
  }

  /** Checking one prefix settles every request path below it, exactly when no deeper entry decides otherwise. */
  lemma {:induction false} PrefixDecidesPaths(t: Table, prefix: string)
    ensures (forall path :: Covers(prefix, path) ==> GatingOf(t, path) == GatingOf(t, prefix))
            <==> EntriesBelowAgree(t, prefix)
  {
    hide Covers, NearestAncestor, GatingOf;
    if EntriesBelowAgree(t, prefix) {
      forall path | Covers(prefix, path) ensures GatingOf(t, path) == GatingOf(t, prefix) {
        PathDecision(t, prefix, path);
      }
    }
  }

  lemma {:induction false} PathDecision(t: Table, prefix: string, path: string)
    requires EntriesBelowAgree(t, prefix) && Covers(prefix, path)
    ensures GatingOf(t, path) == GatingOf(t, prefix)
  {
    hide Covers, NearestAncestor;
    if GatingOf(t, path) == PassThrough {
      NothingPassesUp(t, path, prefix);
    } else {
      var p := DecidedByEntry(t, path);
      if |prefix| <= |p| {
        CoversIsLinear(prefix, p, path);
      } else {
        CoversIsLinear(p, prefix, path);
        if !IsExempt(t, path) { DecisionPassesUp(t, path, prefix, p); }
      }
    }
  }

  // ---------- The declared state of each prefix, and the registered deviations ----------

  /** What is declared of a prefix: its expected state, and the id of a registered deviation. */
  datatype Spec = Spec(expected: string, drift: Option<string>)

  datatype Drift = Drift(id: string, consumer: string, locus: string, expected: string, actual: string)

  datatype Error =
    | PrefixUndeclared(prefix: string)
    | StaleDrift(prefix: string)
    | Unregistered(prefix: string)
    | UnknownDrift(prefix: string)
    | DriftDiffers(prefix: string)
    | PrefixStale(prefix: string)
    | Orphan(id: string)
    | NoProbe(id: string)
    | UnknownConsumer(id: string)
    | ProbeUnregistered(id: string)
    | ContractDiffers(id: string)
    | ProbeFixed(id: string)

  const BACKEND := "backend_middleware"
  const FRONTEND := "frontend"

  /** An absent or empty id counts as none. */
  function DriftId(spec: Spec): Option<string> { if spec.drift == Some("") then None else spec.drift }

  /** The record an id leads to: the last one registered under it. */
  function LastWithId(drifts: seq<Drift>, id: string): (r: Option<Drift>)
    ensures r.Some? ==> r.value in drifts && r.value.id == id
    ensures r.None? ==> forall d :: d in drifts ==> d.id != id
  {
    if drifts == [] then None
    else
      var d := drifts[|drifts| - 1];
      if d.id == id then Some(d) else LastWithId(drifts[..|drifts| - 1], id)
  }

  predicate Explains(d: Drift, prefix: string, expected: string, actual: string) {
    d.consumer == BACKEND && d.locus == prefix && d.expected == expected && d.actual == actual
  }

  /** Either the prefix is as declared and nothing is registered for it, or a matching record is. */
  ghost predicate PrefixClean(spec: Spec, drifts: seq<Drift>, prefix: string, actual: string) {
    if actual == spec.expected then DriftId(spec).None?
    else DriftId(spec).Some? && var d := LastWithId(drifts, DriftId(spec).value);
         d.Some? && Explains(d.value, prefix, spec.expected, actual)
  }

  ghost predicate BackendClean(routes: map<string, Spec>, drifts: seq<Drift>, actual: map<string, string>) {
    routes.Keys == actual.Keys &&
    forall prefix :: prefix in routes ==> PrefixClean(routes[prefix], drifts, prefix, actual[prefix])
  }

  /** What an error says is so. */
  ghost predicate Justified(routes: map<string, Spec>, drifts: seq<Drift>, actual: map<string, string>, e: Error) {
    match e
    case PrefixUndeclared(p) => p in actual && p !in routes
    case PrefixStale(p) => p in routes && p !in actual
    case StaleDrift(p) => p in routes && p in actual && actual[p] == routes[p].expected && DriftId(routes[p]).Some?
    case Unregistered(p) => Deviates(routes, actual, p) && DriftId(routes[p]).None?
    case UnknownDrift(p) =>
      Deviates(routes, actual, p) && DriftId(routes[p]).Some? && LastWithId(drifts, DriftId(routes[p]).value).None?
    case DriftDiffers(p) =>
      Deviates(routes, actual, p) && DriftId(routes[p]).Some? && LastWithId(drifts, DriftId(routes[p]).value).Some?
      && !Explains(LastWithId(drifts, DriftId(routes[p]).value).value, p, routes[p].expected, actual[p])
    case _ => false
  }

  ghost predicate Deviates(routes: map<string, Spec>, actual: map<string, string>, prefix: string) {
    prefix in routes && prefix in actual && actual[prefix] != routes[prefix].expected
  }

  ghost predicate AllJustified(routes: map<string, Spec>, drifts: seq<Drift>, actual: map<string, string>,
                               errs: seq<Error>)
  {
    forall e :: e in errs ==> Justified(routes, drifts, actual, e)
  }

  method CheckPrefix(routes: map<string, Spec>, drifts: seq<Drift>, actual: map<string, string>,
                     byId: map<string, Drift>, prefix: string) returns (errs: seq<Error>)
    requires prefix in routes && prefix in actual
    requires forall id :: LastWithId(drifts, id) == if id in byId then Some(byId[id]) else None
    ensures errs == [] <==> PrefixClean(routes[prefix], drifts, prefix, actual[prefix])
    ensures AllJustified(routes, drifts, actual, errs)
  {
    hide LastWithId;
    var spec, id := routes[prefix], DriftId(routes[prefix]);
    if actual[prefix] == spec.expected {
      errs := if id.Some? then [StaleDrift(prefix)] else [];
    } else if id.None? {
      errs := [Unregistered(prefix)];
    } else if id.value !in byId {
      errs := [UnknownDrift(prefix)];
    } else if !Explains(byId[id.value], prefix, spec.expected, actual[prefix]) {
      errs := [DriftDiffers(prefix)];
    } else {
      errs := [];
    }
  }

  method IndexById(drifts: seq<Drift>) returns (byId: map<string, Drift>)
    ensures forall id :: LastWithId(drifts, id) == if id in byId then Some(byId[id]) else None
  {
    byId := map[];
    for i := 0 to |drifts|
      invariant forall id :: LastWithId(drifts[..i], id) == if id in byId then Some(byId[id]) else None
    {
      byId := byId[drifts[i].id := drifts[i]];
      assert drifts[..i + 1][..i] == drifts[..i];
    }
    assert drifts[..|drifts|] == drifts;
  }

  /** _compare_backend: nothing is reported exactly when every prefix is declared, found, and clean. */
  method CompareBackend(routes: map<string, Spec>, drifts: seq<Drift>, actual: map<string, string>)
      returns (errs: seq<Error>)
    ensures errs == [] <==> BackendClean(routes, drifts, actual)
    ensures AllJustified(routes, drifts, actual, errs)
  {
    hide PrefixClean, LastWithId;
    var byId := IndexById(drifts);
    errs := [];
    var rest := actual.Keys;
    while rest != {}
      invariant rest <= actual.Keys && AllJustified(routes, drifts, actual, errs)
      invariant errs == [] <==> forall prefix :: prefix in actual && prefix !in rest ==>
        prefix in routes && PrefixClean(routes[prefix], drifts, prefix, actual[prefix])
      decreases rest
    {
      var prefix :| prefix in rest;
      rest := rest - {prefix};
      if prefix !in routes {
        errs := errs + [PrefixUndeclared(prefix)];
      } else {
        var more := CheckPrefix(routes, drifts, actual, byId, prefix);
        errs := errs + more;
      }
    }
    ghost var found := errs == [];
    rest := routes.Keys;
    while rest != {}
      invariant rest <= routes.Keys && AllJustified(routes, drifts, actual, errs)
      invariant errs == [] <==> found && forall prefix :: prefix in routes && prefix !in rest ==> prefix in actual
      decreases rest
    {
      var prefix :| prefix in rest;
      rest := rest - {prefix};
      if prefix !in actual { errs := errs + [PrefixStale(prefix)]; }
    }
    if errs == [] {
      assert routes.Keys == actual.Keys;
    }
  }

  // ---------- The deviations of the front end, and the register as a whole ----------

  datatype Probe = Probe(locus: string, expected: string, actual: string, holds: bool)

  predicate CodeUsed(codes: map<string, string>, code: string) { exists r :: r in codes && codes[r] == code }

  predicate WiredToTeaching(codes: map<string, string>) {
    exists r :: r in codes && "/academic" <= r && codes[r] == "teaching"
  }

  /** The two deviations of the front end that can be probed, each with its contract and whether it still holds. */
  function Probes(parsed: Parsed): map<string, Probe> {
    map["studio-frontend-entry-missing" := Probe("studio-entry", "present", "absent",
          !(exists s :: CodeUsed(parsed.Codes(s), "studio"))),
        "teaching-frontend-unwired" := Probe("/academic/*", "moduleCode:teaching", "null",
          !(WiredToTeaching(parsed.accessTable) || WiredToTeaching(parsed.routerMeta)))]
  }

  predicate MeetsContract(d: Drift, probe: Probe) {
    d.locus == probe.locus && d.expected == probe.expected && d.actual == probe.actual
  }

  ghost predicate RegisteredFor(drifts: seq<Drift>, consumer: string, id: string) {
    exists d :: d in drifts && d.consumer == consumer && d.id == id
  }

  ghost predicate FrontendDriftClean(drifts: seq<Drift>, probes: map<string, Probe>) {
    && (forall id :: id in probes && probes[id].holds ==> RegisteredFor(drifts, FRONTEND, id))
    && (forall d :: d in drifts && d.consumer == FRONTEND && d.id in probes ==>
          MeetsContract(d, probes[d.id]) && probes[d.id].holds)
  }

  ghost predicate ProbeJustified(drifts: seq<Drift>, probes: map<string, Probe>, e: Error) {
    match e
    case ProbeUnregistered(id) => id in probes && probes[id].holds && !RegisteredFor(drifts, FRONTEND, id)
    case ProbeFixed(id) => id in probes && !probes[id].holds && RegisteredFor(drifts, FRONTEND, id)
    case ContractDiffers(id) => id in probes && exists d :: d in drifts && d.id == id && !MeetsContract(d, probes[id])
    case _ => false
  }

  /** check_frontend_drift: nothing is reported exactly when the register and the probes agree. */
  method CheckFrontendDrift(drifts: seq<Drift>, probes: map<string, Probe>) returns (errs: seq<Error>)
    ensures errs == [] <==> FrontendDriftClean(drifts, probes)
    ensures forall e :: e in errs ==> ProbeJustified(drifts, probes, e)
  {
    errs := [];
    var registered := set d | d in drifts && d.consumer == FRONTEND :: d.id;
    var rest := probes.Keys;
    while rest != {}
      invariant rest <= probes.Keys && forall e :: e in errs ==> ProbeJustified(drifts, probes, e)
      invariant errs == [] <==> forall id :: id in probes && id !in rest && probes[id].holds ==> id in registered
      decreases rest
    {
      var id :| id in rest;
      rest := rest - {id};
      if probes[id].holds && id !in registered { errs := errs + [ProbeUnregistered(id)]; }
    }
    ghost var complete := errs == [];
    for i := 0 to |drifts|
      invariant forall e :: e in errs ==> ProbeJustified(drifts, probes, e)
      invariant errs == [] <==> complete && forall k :: 0 <= k < i ==>
        (drifts[k].consumer == FRONTEND && drifts[k].id in probes ==>
           MeetsContract(drifts[k], probes[drifts[k].id]) && probes[drifts[k].id].holds)
    {
      var d := drifts[i];
      if d.consumer == FRONTEND && d.id in probes {
        if !MeetsContract(d, probes[d.id]) { errs := errs + [ContractDiffers(d.id)]; }
        if !probes[d.id].holds { errs := errs + [ProbeFixed(d.id)]; }
      }
    }
  }

  ghost predicate Referenced(routes: map<string, Spec>, id: string) {
    exists prefix :: prefix in routes && DriftId(routes[prefix]) == Some(id)
  }

  ghost predicate RegisterClean(routes: map<string, Spec>, drifts: seq<Drift>, probes: map<string, Probe>) {
    forall d :: d in drifts ==>
      (d.consumer == BACKEND && Referenced(routes, d.id)) || (d.consumer == FRONTEND && d.id in probes)
  }

  ghost predicate RecordJustified(routes: map<string, Spec>, drifts: seq<Drift>, probes: map<string, Probe>, e: Error) {
    match e
    case Orphan(id) => RegisteredFor(drifts, BACKEND, id) && !Referenced(routes, id)
    case NoProbe(id) => RegisteredFor(drifts, FRONTEND, id) && id !in probes
    case UnknownConsumer(id) => exists d :: d in drifts && d.id == id && d.consumer != BACKEND && d.consumer != FRONTEND
    case _ => false
  }

  /** check_known_drift: every record is used by a prefix or by a probe. */
  method CheckKnownDrift(routes: map<string, Spec>, drifts: seq<Drift>, probes: map<string, Probe>)
      returns (errs: seq<Error>)
    ensures errs == [] <==> RegisterClean(routes, drifts, probes)
    ensures forall e :: e in errs ==> RecordJustified(routes, drifts, probes, e)
  {
    var refs := set prefix | prefix in routes && DriftId(routes[prefix]).Some? :: DriftId(routes[prefix]).value;
    assert forall id :: id in refs <==> Referenced(routes, id);
    hide Referenced;
    errs := [];
    for i := 0 to |drifts|
      invariant forall e :: e in errs ==> RecordJustified(routes, drifts, probes, e)
      invariant errs == [] <==> forall k :: 0 <= k < i ==>
        (drifts[k].consumer == BACKEND && Referenced(routes, drifts[k].id))
        || (drifts[k].consumer == FRONTEND && drifts[k].id in probes)
    {
      var d := drifts[i];
      if d.consumer == BACKEND {
        if d.id !in refs { errs := errs + [Orphan(d.id)]; }
      } else if d.consumer == FRONTEND {
        if d.id !in probes { errs := errs + [NoProbe(d.id)]; }
      } else {
        errs := errs + [UnknownConsumer(d.id)];
      }
    }
  }

  // ---------- What clean checks guarantee ----------

  lemma {:induction false} LastWithIdIs(drifts: seq<Drift>, id: string, i: nat)
    requires i < |drifts| && drifts[i].id == id && forall j :: i < j < |drifts| ==> drifts[j].id != id
    ensures LastWithId(drifts, id) == Some(drifts[i])
  {
    if i < |drifts| - 1 { LastWithIdIs(drifts[..|drifts| - 1], id, i); }
  }

  lemma {:induction false} LastWithIdAt(drifts: seq<Drift>, id: string) returns (i: nat)
    requires LastWithId(drifts, id).Some?
    ensures i < |drifts| && LastWithId(drifts, id) == Some(drifts[i])
    ensures drifts[i].id == id && forall j :: i < j < |drifts| ==> drifts[j].id != id
  {
    i := |drifts| - 1;
    if drifts[i].id != id { i := LastWithIdAt(drifts[..i], id); }
  }

  /** Record i says that the prefix deviates as it does, and no later record has its id. */
  ghost predicate RecordsDeviation(drifts: seq<Drift>, i: int, prefix: string, spec: Spec, actual: string) {
    && 0 <= i < |drifts| && drifts[i].id != "" && spec.drift == Some(drifts[i].id)
    && (forall j :: i < j < |drifts| ==> drifts[j].id != drifts[i].id)
    && drifts[i].consumer == "backend_middleware" && drifts[i].locus == prefix
    && drifts[i].expected == spec.expected && drifts[i].actual == actual
  }

  lemma {:induction false} PrefixCleanMeans(spec: Spec, drifts: seq<Drift>, prefix: string, actual: string)
    ensures PrefixClean(spec, drifts, prefix, actual) <==>
      if actual == spec.expected then spec.drift == None || spec.drift == Some("")
      else exists i :: RecordsDeviation(drifts, i, prefix, spec, actual)
  {
    hide LastWithId;
    if actual != spec.expected {
      if PrefixClean(spec, drifts, prefix, actual) {
        var i := LastWithIdAt(drifts, DriftId(spec).value);
        assert RecordsDeviation(drifts, i, prefix, spec, actual);
      }
      if i :| RecordsDeviation(drifts, i, prefix, spec, actual) { LastWithIdIs(drifts, drifts[i].id, i); }
    }
  }

  /** A clean comparison: the declared prefixes are the middleware's, a prefix that is as declared refers to no record,
      and any other prefix refers to one that tells exactly how it deviates. */
  lemma {:induction false} BackendCleanMeans(routes: map<string, Spec>, drifts: seq<Drift>, actual: map<string, string>)
    ensures BackendClean(routes, drifts, actual) <==>
      && routes.Keys == actual.Keys
      && forall p :: p in routes ==>
           if actual[p] == routes[p].expected then routes[p].drift == None || routes[p].drift == Some("")
           else exists i :: RecordsDeviation(drifts, i, p, routes[p], actual[p])
  {
    hide PrefixClean, RecordsDeviation;
    if routes.Keys == actual.Keys {
      forall p | p in routes
        ensures PrefixClean(routes[p], drifts, p, actual[p]) <==>
          if actual[p] == routes[p].expected then routes[p].drift == None || routes[p].drift == Some("")
          else exists i :: RecordsDeviation(drifts, i, p, routes[p], actual[p])
      {
        PrefixCleanMeans(routes[p], drifts, p, actual[p]);
      }
    }
  }

  /** The back-end records and the deviating prefixes, one to one by the prefix each record names. */
  ghost predicate OneToOne(routes: map<string, Spec>, drifts: seq<Drift>, actual: map<string, string>) {
    && (forall prefix :: Deviates(routes, actual, prefix) <==>
          exists i :: 0 <= i < |drifts| && drifts[i].consumer == BACKEND && drifts[i].locus == prefix)
    && (forall i, j :: 0 <= i < j < |drifts| && drifts[i].consumer == drifts[j].consumer == BACKEND ==>
          drifts[i].locus != drifts[j].locus)
  }

  /** The ids of the back-end records differ from each other. */
  ghost predicate BackendIdsDistinct(drifts: seq<Drift>) {
    forall i, j :: 0 <= i < j < |drifts| && drifts[i].consumer == drifts[j].consumer == BACKEND ==>
      drifts[i].id != drifts[j].id
  }

  /** A back-end record of a clean register: the prefix that refers to it deviates, and its id leads to a record of
      that prefix. */
  lemma {:induction false} RecordOfPrefix(routes: map<string, Spec>, drifts: seq<Drift>, probes: map<string, Probe>,
                                          actual: map<string, string>, i: nat) returns (prefix: string)
    requires BackendClean(routes, drifts, actual) && RegisterClean(routes, drifts, probes)
    requires i < |drifts| && drifts[i].consumer == BACKEND
    ensures Deviates(routes, actual, prefix) && DriftId(routes[prefix]) == Some(drifts[i].id)
    ensures LastWithId(drifts, drifts[i].id).Some? && LastWithId(drifts, drifts[i].id).value.consumer == BACKEND
    ensures LastWithId(drifts, drifts[i].id).value.locus == prefix
  {
    hide LastWithId;
    assert drifts[i] in drifts;
    prefix :| prefix in routes && DriftId(routes[prefix]) == Some(drifts[i].id);
    assert PrefixClean(routes[prefix], drifts, prefix, actual[prefix]);
  }

  lemma {:induction false} DistinctIdsMatch(routes: map<string, Spec>, drifts: seq<Drift>, probes: map<string, Probe>,
                                            actual: map<string, string>)
    requires BackendClean(routes, drifts, actual) && RegisterClean(routes, drifts, probes)
    requires BackendIdsDistinct(drifts)
    ensures OneToOne(routes, drifts, actual)
  {
    hide LastWithId, RegisterClean;
    forall prefix | Deviates(routes, actual, prefix)
      ensures exists i :: 0 <= i < |drifts| && drifts[i].consumer == BACKEND && drifts[i].locus == prefix
    {
      var d := LastWithId(drifts, DriftId(routes[prefix]).value).value;
      assert d in drifts;
    }
    forall i | 0 <= i < |drifts| && drifts[i].consumer == BACKEND
      ensures Deviates(routes, actual, drifts[i].locus) && DriftId(routes[drifts[i].locus]) == Some(drifts[i].id)
    {
      var prefix := RecordOfPrefix(routes, drifts, probes, actual, i);
      var d := LastWithId(drifts, drifts[i].id).value;
      var j :| 0 <= j < |drifts| && drifts[j] == d;
    }
  }

  lemma {:induction false} MatchNeedsDistinctIds(routes: map<string, Spec>, drifts: seq<Drift>,
                                                 probes: map<string, Probe>, actual: map<string, string>)
    requires BackendClean(routes, drifts, actual) && RegisterClean(routes, drifts, probes)
    requires OneToOne(routes, drifts, actual)
    ensures BackendIdsDistinct(drifts)
  {
    hide RegisterClean;
    forall i, j | 0 <= i < j < |drifts| && drifts[i].consumer == drifts[j].consumer == BACKEND
      ensures drifts[i].id != drifts[j].id
    {
      LocusOwnsId(routes, drifts, probes, actual, i);
      LocusOwnsId(routes, drifts, probes, actual, j);
    }
  }

  /** With a one-to-one register, the record under an id is the record itself. */
  lemma {:induction false} LocusOwnsId(routes: map<string, Spec>, drifts: seq<Drift>, probes: map<string, Probe>,
                                       actual: map<string, string>, i: nat)
    requires BackendClean(routes, drifts, actual) && RegisterClean(routes, drifts, probes)
    requires OneToOne(routes, drifts, actual) && i < |drifts| && drifts[i].consumer == BACKEND
    ensures LastWithId(drifts, drifts[i].id) == Some(drifts[i])
  {
    hide LastWithId, RegisterClean;
    var p := drifts[i].locus;
    assert Deviates(routes, actual, p);
    assert PrefixClean(routes[p], drifts, p, actual[p]);
    var d := LastWithId(drifts, DriftId(routes[p]).value).value;
    var j :| 0 <= j < |drifts| && drifts[j] == d;
    assert i == j;
  }

  /** With clean checks, the registered back-end deviations are one to one with the prefixes that deviate, exactly when
      no two of them share an id. */
  lemma {:induction false} RegisterMatchesDeviations(routes: map<string, Spec>, drifts: seq<Drift>,
                                                     probes: map<string, Probe>, actual: map<string, string>)
    requires BackendClean(routes, drifts, actual) && RegisterClean(routes, drifts, probes)
    ensures routes.Keys == actual.Keys
    ensures OneToOne(routes, drifts, actual) <==> BackendIdsDistinct(drifts)
  {
    hide OneToOne, BackendIdsDistinct, RegisterClean, PrefixClean;
    if BackendIdsDistinct(drifts) { DistinctIdsMatch(routes, drifts, probes, actual); }
    if OneToOne(routes, drifts, actual) { MatchNeedsDistinctIds(routes, drifts, probes, actual); }
  }

  /** Two records under one id can pass every check while one of them describes nothing. */
  lemma {:induction false} SharedIdHidesARecord()
    ensures exists routes: map<string, Spec>, drifts: seq<Drift>, actual: map<string, string> ::
      BackendClean(routes, drifts, actual) && RegisterClean(routes, drifts, map[]) && !OneToOne(routes, drifts, actual)
  {
    var routes := map["/api/v1/a" := Spec("exempt", Some("x"))];
    var actual := map["/api/v1/a" := "pass-through"];
    var gone := Drift("x", BACKEND, "/api/v1/gone", "exempt", "pass-through");
    var used := Drift("x", BACKEND, "/api/v1/a", "exempt", "pass-through");
    var drifts := [gone, used];
    assert LastWithId(drifts, "x") == Some(used);
    assert Referenced(routes, "x") by { assert DriftId(routes["/api/v1/a"]) == Some("x"); }
    assert drifts[0].locus == "/api/v1/gone" && !Deviates(routes, actual, "/api/v1/gone");
    assert !OneToOne(routes, drifts, actual);
  }

  /** With clean checks a front-end deviation is registered exactly while its probe still finds it. */
  lemma {:induction false} FrontendRegisterIsCurrent(routes: map<string, Spec>, drifts: seq<Drift>,
                                                     probes: map<string, Probe>)
    requires FrontendDriftClean(drifts, probes) && RegisterClean(routes, drifts, probes)
    ensures forall id :: RegisteredFor(drifts, FRONTEND, id) <==> id in probes && probes[id].holds
  {
    hide Referenced;
    forall id | RegisteredFor(drifts, FRONTEND, id) ensures id in probes && probes[id].holds {
      var d :| d in drifts && d.consumer == FRONTEND && d.id == id;
    }
  }

  /** For the front end at hand: each of its two deviations is registered exactly while the parsed codes show it, and
      nothing else is registered for it. */
  lemma {:induction false} FrontendDeviationsAreCurrent(routes: map<string, Spec>, drifts: seq<Drift>, parsed: Parsed)
    requires FrontendDriftClean(drifts, Probes(parsed)) && RegisterClean(routes, drifts, Probes(parsed))
    ensures RegisteredFor(drifts, "frontend", "studio-frontend-entry-missing")
            <==> forall s, r :: r in parsed.Codes(s) ==> parsed.Codes(s)[r] != "studio"
    ensures RegisteredFor(drifts, "frontend", "teaching-frontend-unwired")
            <==> NoneForTeaching(parsed.accessTable) && NoneForTeaching(parsed.routerMeta)
    ensures forall d :: d in drifts && d.consumer == "frontend" ==>
      d == Drift("studio-frontend-entry-missing", "frontend", "studio-entry", "present", "absent")
      || d == Drift("teaching-frontend-unwired", "frontend", "/academic/*", "moduleCode:teaching", "null")
  {
    hide RegisteredFor, FrontendDriftClean, RegisterClean, MeetsContract;
    FrontendRegisterIsCurrent(routes, drifts, Probes(parsed));
    assert "studio-frontend-entry-missing"[0] != "teaching-frontend-unwired"[0];
    RecordsMeetContracts(routes, drifts, Probes(parsed));
  }

  /** No page of the academic section is gated by the teaching module. */
  ghost predicate NoneForTeaching(codes: map<string, string>) {
    forall r :: r in codes && codes[r] == "teaching" ==> !("/academic" <= r)
  }

  lemma {:induction false} RecordsMeetContracts(routes: map<string, Spec>, drifts: seq<Drift>, probes: map<string, Probe>)
    requires FrontendDriftClean(drifts, probes) && RegisterClean(routes, drifts, probes)
    ensures forall d :: d in drifts && d.consumer == FRONTEND ==>
      d.id in probes && d.locus == probes[d.id].locus && d.expected == probes[d.id].expected && d.actual == probes[d.id].actual
  {
    hide Referenced;
  }

  /** End to end: when the state found for each prefix is that of the middleware's table, a clean check without
      registered deviations gives every request under a declared prefix the declared treatment, exactly when no deeper
      entry of the table decides otherwise. */
  lemma {:induction false} CleanCheckGovernsRequests(t: Table, routes: map<string, Spec>, drifts: seq<Drift>,
                                                     actual: map<string, string>, prefix: string)
    requires BackendClean(routes, drifts, actual) && prefix in routes && DriftId(routes[prefix]).None?
    requires actual[prefix] == GatingOf(t, prefix).Text()
    ensures (forall path :: Covers(prefix, path) ==> GatingOf(t, path).Text() == routes[prefix].expected)
            <==> EntriesBelowAgree(t, prefix)
  {
    hide GatingOf, LastWithId, EntriesBelowAgree, Gating.Text, Covers;
    assert PrefixClean(routes[prefix], drifts, prefix, actual[prefix]);
    PrefixDecidesPaths(t, prefix);
    forall path ensures GatingOf(t, path).Text() == routes[prefix].expected <==> GatingOf(t, path) == GatingOf(t, prefix) {
      if GatingOf(t, path).Text() == routes[prefix].expected { TextIsInjective(GatingOf(t, path), GatingOf(t, prefix)); }
    }
  }
}
