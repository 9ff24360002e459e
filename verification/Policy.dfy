/**
 backend/authz/policy.go: which area of the API a path belongs to, and whether its subject
 may do what it asks. (The permission claim of the same file is in PermissionClaim.)
 */
module Policy {
  import opened Strings
  import opened StableSort

  datatype Rule = Rule(kind: string, area: string, action: string)
  datatype Area = Area(prefix: string, read: Rule, write: Rule)
  datatype AdminRoute = AdminRoute(template: string, methods: map<string, string>)

  datatype Policy = Policy(
    areas: seq<Area>,                       // sorted by Parse
    moduleAliases: map<string, seq<string>>,
    trialFreeModules: seq<string>,
    superAdminRole: string,
    tenantAdminRole: string,
    adminRoutes: seq<AdminRoute>,
    resources: map<string, set<string>>)    // module to catalogue resources

  /** `permissions` is None when the token carries no claim. */
  datatype Subject = Subject(role: string, tenantID: string, plan: string, permissions: Option<seq<string>>)
  datatype Request = Request(pathname: string, verb: string, requestedTenantID: string)
  datatype Decision = Decision(allow: bool, reason: string, area: string, rule: Option<Rule>, required: string)

  const API := "/api/"
  const ADMIN := "/api/admin/"
  const ANY := "*"
  const EVERYTHING := Triple(ANY, ANY, ANY)

  // ---- Areas ----

  predicate LongerPrefix(a: Area, b: Area) {
    |a.prefix| > |b.prefix|
  }

  /** What Parse does with the areas as listed. */
  function Arranged(listed: seq<Area>): seq<Area> {
    Sort(listed, LongerPrefix)
  }

  /** `prefix` is `rest` or a run of its leading segments. */
  predicate Covers(prefix: string, rest: string) {
    rest == prefix || prefix + "/" <= rest
  }

  function Rest(pathname: string): string
    requires API <= pathname
  {
    TrimRight(pathname[|API|..], '/')
  }

  function FirstCovering(areas: seq<Area>, rest: string): (prefix: string)
    ensures prefix != "" ==> Covers(prefix, rest) && exists a | a in areas :: a.prefix == prefix
  {
    if areas == [] then ""
    else if Covers(areas[0].prefix, rest) then assert areas[0] in areas; areas[0].prefix
    else FirstCovering(areas[1..], rest)
  }

  /** "" stands for an unmapped path. */
  function AreaOf(areas: seq<Area>, pathname: string): (prefix: string)
    ensures prefix != "" ==> API <= pathname && exists a | a in areas :: a.prefix == prefix
  {
    if !(API <= pathname) then "" else FirstCovering(areas, Rest(pathname))
  }

  function FirstWithPrefix(areas: seq<Area>, prefix: string): (a: Option<Area>)
    ensures (exists x | x in areas :: x.prefix == prefix) ==> a.Some? && a.value.prefix == prefix
  {
    if areas == [] then None
    else if areas[0].prefix == prefix then Some(areas[0])
    else
      assert forall x | x in areas :: x == areas[0] || x in areas[1..];
      FirstWithPrefix(areas[1..], prefix)
  }

  predicate IsWrite(verb: string) {
    ToUpper(verb) in {"POST", "PUT", "PATCH", "DELETE"}
  }

  function RuleFor(areas: seq<Area>, prefix: string, verb: string): Rule
    requires exists a | a in areas :: a.prefix == prefix
  {
    var a := FirstWithPrefix(areas, prefix).value;
    if IsWrite(verb) then a.write else a.read
  }

  // ---- Permissions ----

  function Lookup<T>(m: map<string, T>, key: string, absent: T): T {
    if key in m then m[key] else absent
  }

  /** The module and its aliases: the names under which a permission may be held. */
  function Names(aliases: map<string, seq<string>>, area: string): seq<string> {
    [area] + Lookup(aliases, area, [])
  }

  predicate HoldsAs(perms: seq<string>, name: string, action: string, resource: string) {
    || JoinTriple(Triple(name, action, resource)) in perms
    || JoinTriple(Triple(name, action, ANY)) in perms
    || JoinTriple(Triple(name, ANY, ANY)) in perms
  }

  predicate HoldsUnder(perms: seq<string>, names: seq<string>, action: string, resource: string) {
    names != [] && (HoldsAs(perms, names[0], action, resource) || HoldsUnder(perms, names[1..], action, resource))
  }

  predicate HasPermission(aliases: map<string, seq<string>>, perms: seq<string>, area: string, action: string,
      resource: string) {
    perms != []
    && (JoinTriple(EVERYTHING) in perms || HoldsUnder(perms, Names(aliases, area), action, resource))
  }

  predicate HoldsAnyResource(aliases: map<string, seq<string>>, perms: seq<string>, area: string, action: string) {
    || HasPermission(aliases, perms, area, action, ANY)
    || exists x | x in perms :: area + ":" + action + ":" <= x || x == JoinTriple(Triple(area, ANY, ANY))
  }

  // ---- What a module rule requires ----

  function SegmentsAfter(pathname: string, areaKey: string): seq<string>
    requires API <= pathname
  {
    var all := Split(pathname[|API|..], '/');
    var skip := |Split(areaKey, '/')|;
    if skip < |all| then all[skip..] else []
  }

  predicate IsExport(segment: string) {
    Contains(ToLower(segment), "export") || HasSuffix(ToLower(segment), ".csv")
  }

  predicate IsApproval(segment: string) {
    ToLower(segment) in {"approve", "approval", "approvals", "reject", "decision"}
  }

  function ActionFor(verb: string, segments: seq<string>): string {
    if exists s | s in segments :: IsExport(s) then "export"
    else if IsWrite(verb) && exists s | s in segments :: IsApproval(s) then "approve"
    else match ToUpper(verb)
      case "POST" => "create"
      case "PUT" => "edit"
      case "PATCH" => "edit"
      case "DELETE" => "delete"
      case _ => "view"
  }

  function ResourceAmong(known: set<string>, segments: seq<string>): string {
    if segments == [] then ANY
    else if segments[0] in known then segments[0]
    else if Replace(segments[0], '-', '_') in known then Replace(segments[0], '-', '_')
    else ResourceAmong(known, segments[1..])
  }

  function RequiredTriple(resources: map<string, set<string>>, rule: Rule, areaKey: string, req: Request): Triple
    requires API <= req.pathname
  {
    var segments := SegmentsAfter(req.pathname, areaKey);
    Triple(rule.area,
           if rule.action == "" then ActionFor(req.verb, segments) else rule.action,
           ResourceAmong(Lookup(resources, rule.area, {}), segments))
  }

  // ---- Admin levels ----

  predicate SegmentsMatch(template: seq<string>, segments: seq<string>) {
    && |template| == |segments|
    && forall i | 0 <= i < |template| ::
         if template[i] == "[id]" then segments[i] != "" else segments[i] == template[i]
  }

  /** The anchored regular expression of a template: its segments, and at most one trailing slash. */
  predicate TemplateMatches(template: string, rel: string) {
    || SegmentsMatch(Split(template, '/'), Split(rel, '/'))
    || (rel != "" && rel[|rel| - 1] == '/' && SegmentsMatch(Split(template, '/'), Split(rel[..|rel| - 1], '/')))
  }

  function LevelAmong(routes: seq<AdminRoute>, rel: string, verb: string): string {
    if routes == [] then "platform"
    else if TemplateMatches(routes[0].template, rel) then Lookup(routes[0].methods, verb, "platform")
    else LevelAmong(routes[1..], rel, verb)
  }

  function RequiredAdminLevel(routes: seq<AdminRoute>, pathname: string, verb: string): string {
    var upper := ToUpper(verb);
    var rel := if |ADMIN| < |pathname| then pathname[|ADMIN|..] else "";
    if upper == "OPTIONS" then "" else LevelAmong(routes, rel, if upper == "HEAD" then "GET" else upper)
  }

  predicate RoleSatisfies(superAdmin: string, tenantAdmin: string, role: string, level: string) {
    && role != ""
    && (role == superAdmin || (level != "platform" && (level == "admin" ==> role == tenantAdmin)))
  }

  // ---- The decision ----

  /** Without a resource, any resource of the module will do. */
  predicate Holds(aliases: map<string, seq<string>>, perms: seq<string>, area: string, need: Triple) {
    if need.resource == ANY then HoldsAnyResource(aliases, perms, area, need.action)
    else HasPermission(aliases, perms, area, need.action, need.resource)
  }

  /** Decide once the area and its rule are known; the areas play no further part. */
  function DecideRule(p: Policy, areaKey: string, rule: Rule, req: Request, s: Subject): Decision
    requires API <= req.pathname
  {
    var role := TrimSpace(s.role);
    var d := (allow: bool, reason: string) => Decision(allow, reason, areaKey, Some(rule), "");
    if rule.kind == "external" || rule.kind == "partner" then d(true, "delegated")
    else if role == "" then d(false, "missing-role")
    else if req.requestedTenantID != "" && req.requestedTenantID != s.tenantID && role != p.superAdminRole then
      d(false, "cross-tenant")
    else match rule.kind
      case "self" => d(true, "granted")
      case "platform" => if role == p.superAdminRole then d(true, "granted") else d(false, "platform-only")
      case "tenant-admin" =>
        if RoleSatisfies(p.superAdminRole, p.tenantAdminRole, role, "admin") then d(true, "granted")
        else d(false, "tenant-admin-only")
      case "admin-level" =>
        var level := RequiredAdminLevel(p.adminRoutes, req.pathname, req.verb);
        if level == "" || RoleSatisfies(p.superAdminRole, p.tenantAdminRole, role, level) then d(true, "granted")
        else d(false, "admin-level:" + level)
      case "module" =>
        var need := RequiredTriple(p.resources, rule, areaKey, req);
        var out := (allow: bool, reason: string) => Decision(allow, reason, areaKey, Some(rule), JoinTriple(need));
        if role == p.superAdminRole then out(true, "granted")
        else if s.permissions.None? then out(false, "no-permission-claim")
        else if s.plan == "TRIAL" && need.action != "view" && rule.area !in p.trialFreeModules then
          out(false, "trial-read-only")
        else if Holds(p.moduleAliases, s.permissions.value, rule.area, need) then out(true, "granted")
        else out(false, "missing-permission")
      case _ => d(false, "unknown-rule")
  }

  function Decide(p: Policy, req: Request, s: Subject): Decision {
    var areaKey := AreaOf(p.areas, req.pathname);
    if areaKey == "" then Decision(false, "unmapped-route", "", None, "")
    else DecideRule(p, areaKey, RuleFor(p.areas, areaKey, req.verb), req, s)
  }

  // ---- Main results: areas ----

  function Prefixes(areas: seq<Area>): set<string> {
    set a | a in areas :: a.prefix
  }

  function CoveringPrefixes(areas: seq<Area>, rest: string): set<string> {
    set a | a in areas && Covers(a.prefix, rest) :: a.prefix
  }

  /** `r` is in the set and every other member is a prefix of it; "" when the set is empty. */
  predicate LongestOf(prefixes: set<string>, r: string) {
    if prefixes == {} then r == "" else r in prefixes && forall p | p in prefixes :: p <= r
  }

  lemma CoversNest(p: string, q: string, rest: string)
    requires Covers(p, rest) && Covers(q, rest) && |p| <= |q|
    ensures p <= q
  {
    assert p == rest[..|p|] && q == rest[..|q|];
  }

  lemma {:induction false} FirstCoveringIsLongest(areas: seq<Area>, rest: string)
    requires Ordered(areas, LongerPrefix)
    ensures LongestOf(CoveringPrefixes(areas, rest), FirstCovering(areas, rest))
  {
    if areas == [] {
    } else if Covers(areas[0].prefix, rest) {
      assert areas[0].prefix in CoveringPrefixes(areas, rest);
      forall p | p in CoveringPrefixes(areas, rest) ensures p <= areas[0].prefix {
        var a :| a in areas && Covers(a.prefix, rest) && a.prefix == p;
        var i :| 0 <= i < |areas| && areas[i] == a;
        assert i == 0 || !LongerPrefix(areas[i], areas[0]);
        CoversNest(p, areas[0].prefix, rest);
      }
    } else {
      FirstCoveringIsLongest(areas[1..], rest);
      assert areas == [areas[0]] + areas[1..];
      assert CoveringPrefixes(areas, rest) == CoveringPrefixes(areas[1..], rest);
    }
  }

  /**
   Longest area wins, whatever order the document lists its areas in: the area of a path is a
   listed prefix that covers it, and every other covering prefix is a prefix of it.
   */
  lemma LongestAreaWins(listed: seq<Area>, pathname: string)
    requires API <= pathname
    ensures LongestOf(CoveringPrefixes(listed, Rest(pathname)), AreaOf(Arranged(listed), pathname))
  {
    SortOrdered(listed, LongerPrefix);
    FirstCoveringIsLongest(Arranged(listed), Rest(pathname));
    forall a ensures a in Arranged(listed) <==> a in listed { InSort(listed, LongerPrefix, a); }
    assert CoveringPrefixes(listed, Rest(pathname)) == CoveringPrefixes(Arranged(listed), Rest(pathname));
  }

  /** Only the set of prefixes matters, not the order they are listed in. */
  lemma ListingOrderIsIrrelevant(listed: seq<Area>, relisted: seq<Area>, pathname: string)
    requires Prefixes(listed) == Prefixes(relisted)
    ensures AreaOf(Arranged(listed), pathname) == AreaOf(Arranged(relisted), pathname)
  {
    if API <= pathname {
      var rest := Rest(pathname);
      LongestAreaWins(listed, pathname);
      LongestAreaWins(relisted, pathname);
      forall p ensures p in CoveringPrefixes(listed, rest) <==> p in CoveringPrefixes(relisted, rest) {
        assert p in CoveringPrefixes(listed, rest) <==> p in Prefixes(listed) && Covers(p, rest);
        assert p in CoveringPrefixes(relisted, rest) <==> p in Prefixes(relisted) && Covers(p, rest);
      }
    }
  }

  lemma {:induction false} FirstWithPrefixAmongTies(areas: seq<Area>, e: Area)
    ensures FirstWithPrefix(areas, e.prefix) == FirstWithPrefix(Ties(areas, LongerPrefix, e), e.prefix)
  {
    if areas == [] {
    } else {
      FirstWithPrefixAmongTies(areas[1..], e);
      var ties := Ties(areas[1..], LongerPrefix, e);
      assert ([areas[0]] + ties)[1..] == ties;
      assert [] + ties == ties;
    }
  }

  /** Stability: of two areas with one prefix, the one listed first still gives the rule. */
  lemma SortKeepsFirstWithPrefix(listed: seq<Area>, prefix: string)
    ensures FirstWithPrefix(Arranged(listed), prefix) == FirstWithPrefix(listed, prefix)
  {
    var e := Area(prefix, Rule("", "", ""), Rule("", "", ""));
    SortKeepsTies(listed, LongerPrefix, e);
    FirstWithPrefixAmongTies(listed, e);
    FirstWithPrefixAmongTies(Arranged(listed), e);
  }

  lemma {:induction false} FirstWithPrefixSkips(before: seq<Area>, extra: Area, rest: seq<Area>, prefix: string)
    requires extra.prefix != prefix
    ensures FirstWithPrefix(before + [extra] + rest, prefix) == FirstWithPrefix(before + rest, prefix)
  {
    if before == [] {
      assert ([extra] + rest)[1..] == rest && [] + rest == rest;
      assert [] + [extra] + rest == [extra] + rest;
    } else {
      FirstWithPrefixSkips(before[1..], extra, rest, prefix);
      assert (before + [extra] + rest)[1..] == before[1..] + [extra] + rest;
      assert (before + rest)[1..] == before[1..] + rest;
    }
  }

  lemma UncoveringAreaKeepsArea(before: seq<Area>, extra: Area, rest: seq<Area>, pathname: string)
    requires API <= pathname && !Covers(extra.prefix, Rest(pathname))
    ensures var w := AreaOf(Arranged(before + [extra] + rest), pathname);
      w == AreaOf(Arranged(before + rest), pathname) && (w != "" ==> extra.prefix != w)
  {
    var wide, narrow := before + [extra] + rest, before + rest;
    LongestAreaWins(wide, pathname);
    LongestAreaWins(narrow, pathname);
    assert forall a :: a in wide <==> a == extra || a in narrow;
    assert CoveringPrefixes(wide, Rest(pathname)) == CoveringPrefixes(narrow, Rest(pathname));
  }

  lemma UncoveringAreaKeepsRule(before: seq<Area>, extra: Area, rest: seq<Area>, prefix: string, verb: string)
    requires extra.prefix != prefix
    requires exists a | a in Arranged(before + [extra] + rest) :: a.prefix == prefix
    requires exists a | a in Arranged(before + rest) :: a.prefix == prefix
    ensures RuleFor(Arranged(before + [extra] + rest), prefix, verb) == RuleFor(Arranged(before + rest), prefix, verb)
  {
    SortKeepsFirstWithPrefix(before + [extra] + rest, prefix);
    SortKeepsFirstWithPrefix(before + rest, prefix);
    FirstWithPrefixSkips(before, extra, rest, prefix);
  }

  lemma DecideRuleIgnoresAreas(p: Policy, a: seq<Area>, b: seq<Area>, areaKey: string, rule: Rule, req: Request,
      s: Subject)
    requires API <= req.pathname
    ensures DecideRule(p.(areas := a), areaKey, rule, req, s) == DecideRule(p.(areas := b), areaKey, rule, req, s)
  {
  }

  /** Adding an area that does not cover a path, anywhere in the document, never changes that path's decision. */
  lemma UncoveringAreaIsHarmless(p: Policy, before: seq<Area>, extra: Area, rest: seq<Area>, req: Request, s: Subject)
    requires API <= req.pathname ==> !Covers(extra.prefix, Rest(req.pathname))
    ensures Decide(p.(areas := Arranged(before + [extra] + rest)), req, s)
         == Decide(p.(areas := Arranged(before + rest)), req, s)
  {
    if API <= req.pathname {
      var wide, narrow := Arranged(before + [extra] + rest), Arranged(before + rest);
      UncoveringAreaKeepsArea(before, extra, rest, req.pathname);
      var areaKey := AreaOf(wide, req.pathname);
      if areaKey != "" {
        UncoveringAreaKeepsRule(before, extra, rest, areaKey, req.verb);
        DecideRuleIgnoresAreas(p, wide, narrow, areaKey, RuleFor(wide, areaKey, req.verb), req, s);
      }
    }
  }

  // ---- Main results: permissions ----

  /**
   Wildcard matching on triples: all three, or the same module with the action and resource, or
   either wildcard form.
   */
  predicate Grants(t: Triple, area: string, action: string, resource: string) {
    || t == EVERYTHING
    || (&& t.area == area
        && (|| (t.action == action && (t.resource == resource || t.resource == ANY))
            || (t.action == ANY && t.resource == ANY)))
  }

  /** `x` parses to a triple that grants this. */
  predicate GrantsAs(x: string, name: string, action: string, resource: string) {
    ParseTriple(x).Some? && Grants(ParseTriple(x).value, name, action, resource)
  }

  /** `x` grants the action and resource under one of the names. */
  predicate HeldGrant(x: string, names: seq<string>, action: string, resource: string) {
    exists name | name in names :: GrantsAs(x, name, action, resource)
  }

  predicate ColonFree(names: seq<string>) {
    forall name | name in names :: ':' !in name
  }

  /** Comparing joined strings is wildcard matching on triples. */
  lemma JoinedComparisonIsMatching(x: string, name: string, action: string, resource: string)
    requires ':' !in name && ':' !in action
    ensures GrantsAs(x, name, action, resource) <==>
      || x == JoinTriple(EVERYTHING)
      || x == JoinTriple(Triple(name, action, resource))
      || x == JoinTriple(Triple(name, action, ANY))
      || x == JoinTriple(Triple(name, ANY, ANY))
  {
    JoinedIffParsed(x, EVERYTHING);
    JoinedIffParsed(x, Triple(name, action, resource));
    JoinedIffParsed(x, Triple(name, action, ANY));
    JoinedIffParsed(x, Triple(name, ANY, ANY));
  }

  lemma HoldsAsMeaning(perms: seq<string>, name: string, action: string, resource: string)
    requires ':' !in name && ':' !in action
    ensures HoldsAs(perms, name, action, resource) || JoinTriple(EVERYTHING) in perms <==>
      exists x | x in perms :: GrantsAs(x, name, action, resource)
  {
    JoinedComparisonIsMatching(JoinTriple(EVERYTHING), name, action, resource);
    JoinedComparisonIsMatching(JoinTriple(Triple(name, action, resource)), name, action, resource);
    JoinedComparisonIsMatching(JoinTriple(Triple(name, action, ANY)), name, action, resource);
    JoinedComparisonIsMatching(JoinTriple(Triple(name, ANY, ANY)), name, action, resource);
    if x :| x in perms && GrantsAs(x, name, action, resource) {
      JoinedComparisonIsMatching(x, name, action, resource);
    }
  }

  lemma {:induction false} HoldsUnderMeaning(perms: seq<string>, names: seq<string>, action: string, resource: string)
    requires ColonFree(names) && ':' !in action && names != []
    ensures HoldsUnder(perms, names, action, resource) || JoinTriple(EVERYTHING) in perms <==>
      exists x | x in perms :: HeldGrant(x, names, action, resource)
  {
    assert names[0] in names;
    HoldsAsMeaning(perms, names[0], action, resource);
    if |names| == 1 {
      assert forall x | x in perms :: HeldGrant(x, names, action, resource) <==>
        GrantsAs(x, names[0], action, resource);
    } else {
      HoldsUnderMeaning(perms, names[1..], action, resource);
      assert forall x | x in perms :: HeldGrant(x, names, action, resource) <==>
        GrantsAs(x, names[0], action, resource) || HeldGrant(x, names[1..], action, resource);
    }
  }

  /** HasPermission, as a statement about held triples. */
  lemma HasPermissionMeaning(aliases: map<string, seq<string>>, perms: seq<string>, area: string, action: string,
      resource: string)
    requires ColonFree(Names(aliases, area)) && ':' !in action
    ensures HasPermission(aliases, perms, area, action, resource) <==>
      exists x | x in perms :: HeldGrant(x, Names(aliases, area), action, resource)
  {
    HoldsUnderMeaning(perms, Names(aliases, area), action, resource);
  }

  /** The prefix test of holdsAnyResource finds the strings that name the module and action, whatever the resource. */
  lemma PrefixMeansSomeResource(x: string, area: string, action: string)
    requires ':' !in area && ':' !in action
    ensures area + ":" + action + ":" <= x <==>
      ParseTriple(x).Some? && ParseTriple(x).value.area == area && ParseTriple(x).value.action == action
  {
    var head := area + ":" + action + ":";
    if head <= x {
      var t := Triple(area, action, x[|head|..]);
      assert x == JoinTriple(t);
      ParseJoin(t);
    }
  }

  /**
   What a held string must be to satisfy a module rule. Without a resource, any resource of the
   module itself will do.
   */
  predicate Authorizes(aliases: map<string, seq<string>>, x: string, need: Triple) {
    || HeldGrant(x, Names(aliases, need.area), need.action, need.resource)
    || (&& need.resource == ANY
        && ParseTriple(x).Some? && ParseTriple(x).value.area == need.area && ParseTriple(x).value.action == need.action)
  }

  lemma HoldsAnyResourceMeaning(aliases: map<string, seq<string>>, perms: seq<string>, area: string, action: string)
    requires ColonFree(Names(aliases, area)) && ':' !in action
    ensures HoldsAnyResource(aliases, perms, area, action) <==>
      exists x | x in perms :: Authorizes(aliases, x, Triple(area, action, ANY))
  {
    var need := Triple(area, action, ANY);
    var names := Names(aliases, area);
    assert names[0] == area && area in names;
    HasPermissionMeaning(aliases, perms, area, action, ANY);
    forall x | x in perms
      ensures area + ":" + action + ":" <= x || x == JoinTriple(Triple(area, ANY, ANY)) ==> Authorizes(aliases, x, need)
      ensures Authorizes(aliases, x, need) ==> HoldsAnyResource(aliases, perms, area, action)
    {
      PrefixMeansSomeResource(x, area, action);
      JoinedComparisonIsMatching(x, area, action, ANY);
    }
    if HasPermission(aliases, perms, area, action, ANY) {
      var x :| x in perms && HeldGrant(x, names, action, ANY);
      assert Authorizes(aliases, x, need);
    }
  }

  predicate TrialBlocks(p: Policy, s: Subject, need: Triple) {
    s.plan == "TRIAL" && need.action != "view" && need.area !in p.trialFreeModules
  }

  /**
   Grounded: a module rule allows exactly a platform role, or a role of the right tenant whose
   token carries a claim, whom the trial limit does not stop, and who holds some permission that
   authorizes what the rule requires. The requires only keep colons out of the policy's own names.
   */
  lemma ModuleRuleMeaning(p: Policy, areaKey: string, rule: Rule, req: Request, s: Subject)
    requires API <= req.pathname && rule.kind == "module"
    requires ColonFree(Names(p.moduleAliases, rule.area))
    requires ':' !in RequiredTriple(p.resources, rule, areaKey, req).action
    ensures var need := RequiredTriple(p.resources, rule, areaKey, req);
      var role := TrimSpace(s.role);
      DecideRule(p, areaKey, rule, req, s).allow <==>
        && role != ""
        && (|| role == p.superAdminRole
            || (&& (req.requestedTenantID == "" || req.requestedTenantID == s.tenantID)
                && s.permissions.Some?
                && !TrialBlocks(p, s, need)
                && exists x | x in s.permissions.value :: Authorizes(p.moduleAliases, x, need)))
  {
    var need := RequiredTriple(p.resources, rule, areaKey, req);
    if s.permissions.Some? {
      var perms := s.permissions.value;
      if need.resource == ANY {
        HoldsAnyResourceMeaning(p.moduleAliases, perms, rule.area, need.action);
        assert need == Triple(rule.area, need.action, ANY);
      } else {
        HasPermissionMeaning(p.moduleAliases, perms, rule.area, need.action, need.resource);
        assert forall x :: Authorizes(p.moduleAliases, x, need) <==>
          HeldGrant(x, Names(p.moduleAliases, rule.area), need.action, need.resource);
      }
    }
  }

  /** Every allow under a module rule, for a role other than the platform's, has a held permission behind it. */
  lemma EveryModuleAllowIsGrounded(p: Policy, req: Request, s: Subject)
    requires Decide(p, req, s).allow
    requires var rule := RuleFor(p.areas, AreaOf(p.areas, req.pathname), req.verb);
      && rule.kind == "module" && ColonFree(Names(p.moduleAliases, rule.area))
      && ':' !in RequiredTriple(p.resources, rule, AreaOf(p.areas, req.pathname), req).action
    requires TrimSpace(s.role) != p.superAdminRole
    ensures s.permissions.Some?
    ensures var rule := RuleFor(p.areas, AreaOf(p.areas, req.pathname), req.verb);
      var need := RequiredTriple(p.resources, rule, AreaOf(p.areas, req.pathname), req);
      && Decide(p, req, s).required == JoinTriple(need)
      && exists x | x in s.permissions.value :: Authorizes(p.moduleAliases, x, need)
  {
    var areaKey := AreaOf(p.areas, req.pathname);
    ModuleRuleMeaning(p, areaKey, RuleFor(p.areas, areaKey, req.verb), req, s);
  }

  /**
   No allow decided here crosses tenants, or lacks a role, unless the role is the platform's;
   unmapped paths are denied.
   */
  lemma AllowsStayInTheTenant(p: Policy, req: Request, s: Subject)
    requires Decide(p, req, s).allow && Decide(p, req, s).reason != "delegated"
    ensures AreaOf(p.areas, req.pathname) != "" && TrimSpace(s.role) != ""
    ensures req.requestedTenantID in {"", s.tenantID} || TrimSpace(s.role) == p.superAdminRole
  {
  }

  /** Roles in order: none, any, the tenant's administrator, the platform's. */
  function RoleRank(p: Policy, role: string): nat {
    if role == "" then 0 else if role == p.superAdminRole then 3 else if role == p.tenantAdminRole then 2 else 1
  }

  const NOBODY := 4

  /** The least rank a rule other than a module's asks for; 0 when it is decided elsewhere. */
  function NeededRank(p: Policy, rule: Rule, req: Request): nat {
    match rule.kind
    case "external" => 0
    case "partner" => 0
    case "self" => 1
    case "tenant-admin" => 2
    case "platform" => 3
    case "admin-level" =>
      var level := RequiredAdminLevel(p.adminRoutes, req.pathname, req.verb);
      if level == "platform" then 3 else if level == "admin" then 2 else 1
    case _ => NOBODY
  }

  /** The other rules are a ladder: allowed exactly from some rank up, within the tenant or with the platform's role. */
  lemma OtherRulesAreALadder(p: Policy, areaKey: string, rule: Rule, req: Request, s: Subject)
    requires API <= req.pathname && rule.kind != "module"
    ensures var role := TrimSpace(s.role);
      DecideRule(p, areaKey, rule, req, s).allow <==>
        || NeededRank(p, rule, req) == 0
        || (&& RoleRank(p, role) >= NeededRank(p, rule, req)
            && (req.requestedTenantID in {"", s.tenantID} || role == p.superAdminRole))
  {
  }

  /** Whatever anybody may do, the platform's role may do, of whatever tenant and with whatever claim. */
  lemma PlatformRoleDominates(p: Policy, req: Request, s: Subject, platform: Subject)
    requires Decide(p, req, s).allow
    requires TrimSpace(platform.role) == p.superAdminRole != ""
    ensures Decide(p, req, platform).allow
  {
    var areaKey := AreaOf(p.areas, req.pathname);
    var rule := RuleFor(p.areas, areaKey, req.verb);
    if rule.kind != "module" {
      OtherRulesAreALadder(p, areaKey, rule, req, s);
      OtherRulesAreALadder(p, areaKey, rule, req, platform);
    }
  }

  /** `wide` holds at least what `narrow` holds; any claim is more than none. */
  predicate AtLeast(wide: Option<seq<string>>, narrow: Option<seq<string>>) {
    narrow.Some? ==> wide.Some? && forall x | x in narrow.value :: x in wide.value
  }

  lemma {:induction false} HoldsUnderIsMonotone(wide: seq<string>, narrow: seq<string>, names: seq<string>,
      action: string, resource: string)
    requires forall x | x in narrow :: x in wide
    requires HoldsUnder(narrow, names, action, resource)
    ensures HoldsUnder(wide, names, action, resource)
  {
    if HoldsUnder(narrow, names[1..], action, resource) {
      HoldsUnderIsMonotone(wide, narrow, names[1..], action, resource);
    }
  }

  lemma HasPermissionIsMonotone(aliases: map<string, seq<string>>, wide: seq<string>, narrow: seq<string>,
      area: string, action: string, resource: string)
    requires forall x | x in narrow :: x in wide
    requires HasPermission(aliases, narrow, area, action, resource)
    ensures HasPermission(aliases, wide, area, action, resource)
  {
    assert narrow[0] in wide;
    if HoldsUnder(narrow, Names(aliases, area), action, resource) {
      HoldsUnderIsMonotone(wide, narrow, Names(aliases, area), action, resource);
    }
  }

  lemma HoldsIsMonotone(aliases: map<string, seq<string>>, wide: seq<string>, narrow: seq<string>, area: string,
      need: Triple)
    requires forall x | x in narrow :: x in wide
    requires Holds(aliases, narrow, area, need)
    ensures Holds(aliases, wide, area, need)
  {
    if HasPermission(aliases, narrow, area, need.action, need.resource) {
      HasPermissionIsMonotone(aliases, wide, narrow, area, need.action, need.resource);
    }
  }

  /** Monotone, for every policy, request and kind of rule: more permissions never turn an allow into a deny. */
  lemma DecideIsMonotone(p: Policy, req: Request, s: Subject, wide: Option<seq<string>>)
    requires AtLeast(wide, s.permissions) && Decide(p, req, s).allow
    ensures Decide(p, req, s.(permissions := wide)).allow
  {
    var areaKey := AreaOf(p.areas, req.pathname);
    DecideRuleIsMonotone(p, areaKey, RuleFor(p.areas, areaKey, req.verb), req, s, wide);
  }

  lemma DecideRuleIsMonotone(p: Policy, areaKey: string, rule: Rule, req: Request, s: Subject,
      wide: Option<seq<string>>)
    requires API <= req.pathname
    requires AtLeast(wide, s.permissions) && DecideRule(p, areaKey, rule, req, s).allow
    ensures DecideRule(p, areaKey, rule, req, s.(permissions := wide)).allow
  {
    var need := RequiredTriple(p.resources, rule, areaKey, req);
    if s.permissions.Some? && Holds(p.moduleAliases, s.permissions.value, rule.area, need) {
      HoldsIsMonotone(p.moduleAliases, wide.value, s.permissions.value, rule.area, need);
    }
  }
}
