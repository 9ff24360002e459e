/**
 backend/authz/policy.go: what a request asks for, said of the segments of its path and the
 spelling of its verb instead of through the functions that compute it: its area, the rule of
 the area, the action and resource a module rule requires, and its administration level.
 */
module PolicyPaths {
  import opened Strings
  import opened StableSort
  import opened Policy

  // ---- Paths ----

  /** /api/<area>/<segment>/<segment>... */
  function PathOf(areaKey: string, segments: seq<string>): string {
    API + areaKey + if segments == [] then "" else "/" + Joined(segments, '/')
  }

  lemma SplitOfConcat(a: string, b: string, c: char)
    ensures Split(a + [c] + b, c) == Split(a, c) + Split(b, c)
  {
    JoinedSplit(a, c);
    JoinedSplit(b, c);
    JoinedConcat(Split(a, c), Split(b, c), c);
    SplitJoined(Split(a, c) + Split(b, c), c);
  }

  lemma SegmentsOfPath(areaKey: string, segments: seq<string>)
    requires Free(segments, '/')
    ensures SegmentsAfter(PathOf(areaKey, segments), areaKey) == segments
  {
    var path := PathOf(areaKey, segments);
    if segments == [] {
      assert path[|API|..] == areaKey;
    } else {
      assert path[|API|..] == areaKey + ['/'] + Joined(segments, '/');
      SplitOfConcat(areaKey, Joined(segments, '/'), '/');
      SplitJoined(segments, '/');
    }
  }

  /** The first segments of `rest` are those of `prefix`. */
  predicate Leads(prefix: string, rest: string) {
    Split(prefix, '/') <= Split(rest, '/')
  }

  lemma CoveredIsLed(prefix: string, rest: string)
    requires Covers(prefix, rest)
    ensures Leads(prefix, rest)
  {
    if prefix != rest {
      var more := rest[|prefix| + 1..];
      assert rest == prefix + ['/'] + more;
      SplitOfConcat(prefix, more, '/');
    }
  }

  lemma LedIsCovered(prefix: string, rest: string)
    requires Leads(prefix, rest)
    ensures Covers(prefix, rest)
  {
    var p, r := Split(prefix, '/'), Split(rest, '/');
    JoinedSplit(prefix, '/');
    JoinedSplit(rest, '/');
    if p != r {
      assert r == p + r[|p|..];
      JoinedConcat(p, r[|p|..], '/');
      assert prefix + "/" <= rest;
    }
  }

  lemma CoversIsLeading(prefix: string, rest: string)
    ensures Covers(prefix, rest) <==> Leads(prefix, rest)
  {
    if Covers(prefix, rest) {
      CoveredIsLed(prefix, rest);
    }
    if Leads(prefix, rest) {
      LedIsCovered(prefix, rest);
    }
  }

  lemma {:induction false} TrimmedSlashes(rest: string, slashes: string)
    requires forall i | 0 <= i < |slashes| :: slashes[i] == '/'
    requires rest == "" || rest[|rest| - 1] != '/'
    ensures TrimRight(rest + slashes, '/') == rest
  {
    if slashes == "" {
      assert rest + slashes == rest;
    } else {
      assert (rest + slashes)[..|rest + slashes| - 1] == rest + slashes[..|slashes| - 1];
      TrimmedSlashes(rest, slashes[..|slashes| - 1]);
    }
  }

  /**
   The area of a path, by segments: whatever order the areas are listed in and however many slashes
   end the path, it is a listed prefix whose segments are the path's first, and every other such
   prefix is a prefix of it; "" when there is none or the path is not under /api/.
   */
  lemma AreaHoldsTheFirstSegments(listed: seq<Area>, rest: string, slashes: string, pathname: string)
    requires forall i | 0 <= i < |slashes| :: slashes[i] == '/'
    requires rest == "" || rest[|rest| - 1] != '/'
    ensures LongestOf(set a | a in listed && Leads(a.prefix, rest) :: a.prefix,
                      AreaOf(Arranged(listed), "/api/" + rest + slashes))
    ensures !("/api/" <= pathname) ==> AreaOf(Arranged(listed), pathname) == ""
  {
    var path := "/api/" + rest + slashes;
    assert path[|API|..] == rest + slashes;
    TrimmedSlashes(rest, slashes);
    LongestAreaWins(listed, path);
    forall a | a in listed ensures Covers(a.prefix, rest) <==> Leads(a.prefix, rest) {
      CoversIsLeading(a.prefix, rest);
    }
    assert CoveringPrefixes(listed, rest) == set a | a in listed && Leads(a.prefix, rest) :: a.prefix;
  }

  // ---- Verbs ----

  /** The verb writes, in any letter case. */
  predicate Writes(verb: string) {
    EqualFold(verb, "POST") || EqualFold(verb, "PUT") || EqualFold(verb, "PATCH") || EqualFold(verb, "DELETE")
  }

  lemma VerbsAreFolded(verb: string)
    ensures ToUpper(verb) == "POST" <==> EqualFold(verb, "POST")
    ensures ToUpper(verb) == "PUT" <==> EqualFold(verb, "PUT")
    ensures ToUpper(verb) == "PATCH" <==> EqualFold(verb, "PATCH")
    ensures ToUpper(verb) == "DELETE" <==> EqualFold(verb, "DELETE")
    ensures IsWrite(verb) <==> Writes(verb)
  {
    ToUpperMeaning(verb, "POST");
    ToUpperMeaning(verb, "PUT");
    ToUpperMeaning(verb, "PATCH");
    ToUpperMeaning(verb, "DELETE");
  }

  lemma {:induction false} FirstListed(listed: seq<Area>, i: nat)
    requires i < |listed| && forall j | 0 <= j < i :: listed[j].prefix != listed[i].prefix
    ensures FirstWithPrefix(listed, listed[i].prefix) == Some(listed[i])
  {
    if i > 0 {
      FirstListed(listed[1..], i - 1);
    }
  }

  /** The rule of an area is that of its first listing: the write rule for a verb that writes, else the read rule. */
  lemma RuleOfFirstListing(listed: seq<Area>, i: nat, verb: string)
    requires i < |listed| && forall j | 0 <= j < i :: listed[j].prefix != listed[i].prefix
    ensures listed[i] in Arranged(listed)
    ensures RuleFor(Arranged(listed), listed[i].prefix, verb)
         == if Writes(verb) then listed[i].write else listed[i].read
  {
    InSort(listed, LongerPrefix, listed[i]);
    SortKeepsFirstWithPrefix(listed, listed[i].prefix);
    FirstListed(listed, i);
    VerbsAreFolded(verb);
  }

  // ---- The action a module rule requires ----

  /** A segment names an export: "export" somewhere in it, or ".csv" at its end. */
  predicate NamesExport(segment: string) {
    || (exists i: nat | i <= |segment| :: FoldedAt(segment, i, "export"))
    || (|segment| >= 4 && EqualFold(segment[|segment| - 4..], ".csv"))
  }

  predicate NamesApproval(segment: string) {
    || EqualFold(segment, "approve") || EqualFold(segment, "approval") || EqualFold(segment, "approvals")
    || EqualFold(segment, "reject") || EqualFold(segment, "decision")
  }

  predicate AsksForExport(segments: seq<string>) {
    exists s | s in segments :: NamesExport(s)
  }

  predicate AsksForApproval(segments: seq<string>) {
    exists s | s in segments :: NamesApproval(s)
  }

  /** The action of a verb on a path, verb by verb. */
  function ActionAsked(verb: string, segments: seq<string>): string {
    if AsksForExport(segments) then "export"
    else if !Writes(verb) then "view"
    else if AsksForApproval(segments) then "approve"
    else if EqualFold(verb, "POST") then "create"
    else if EqualFold(verb, "DELETE") then "delete"
    else "edit"
  }

  lemma LowerAt(s: string, i: nat, part: string)
    requires forall k | 0 <= k < |part| :: !('A' <= part[k] <= 'Z')
    ensures StandsAt(ToLower(s), i, part) <==> FoldedAt(s, i, part)
  {
    if i + |part| <= |s| {
      assert ToLower(s)[i..i + |part|] == ToLower(s[i..i + |part|]);
      ToLowerMeaning(s[i..i + |part|], part);
    }
  }

  lemma LowerContains(segment: string, part: string)
    requires forall k | 0 <= k < |part| :: !('A' <= part[k] <= 'Z')
    ensures Contains(ToLower(segment), part) <==> exists i: nat | i <= |segment| :: FoldedAt(segment, i, part)
  {
    ContainsMeaning(ToLower(segment), part);
    forall i: nat ensures StandsAt(ToLower(segment), i, part) <==> FoldedAt(segment, i, part) {
      LowerAt(segment, i, part);
    }
  }

  lemma LowerEnds(segment: string, part: string)
    requires |part| <= |segment| && forall k | 0 <= k < |part| :: !('A' <= part[k] <= 'Z')
    ensures HasSuffix(ToLower(segment), part) <==> EqualFold(segment[|segment| - |part|..], part)
  {
    var end := segment[|segment| - |part|..];
    assert ToLower(segment)[|segment| - |part|..] == ToLower(end);
    ToLowerMeaning(end, part);
  }

  lemma SegmentMeaning(segment: string)
    ensures IsExport(segment) <==> NamesExport(segment)
    ensures IsApproval(segment) <==> NamesApproval(segment)
  {
    LowerContains(segment, "export");
    if |segment| >= 4 {
      LowerEnds(segment, ".csv");
    }
    ApprovalMeaning(segment);
  }

  lemma ApprovalMeaning(segment: string)
    ensures IsApproval(segment) <==> NamesApproval(segment)
  {
    ToLowerMeaning(segment, "approve");
    ToLowerMeaning(segment, "approval");
    ToLowerMeaning(segment, "approvals");
    ToLowerMeaning(segment, "reject");
    ToLowerMeaning(segment, "decision");
  }

  lemma ActionMeaning(verb: string, segments: seq<string>)
    ensures ActionFor(verb, segments) == ActionAsked(verb, segments)
  {
    VerbsAreFolded(verb);
    forall s ensures (IsExport(s) <==> NamesExport(s)) && (IsApproval(s) <==> NamesApproval(s)) {
      SegmentMeaning(s);
    }
  }

  // ---- The resource a module rule requires ----

  /** `u` is `s` with underscores for its dashes. */
  predicate Underscored(s: string, u: string) {
    |u| == |s| && forall i | 0 <= i < |s| :: u[i] == if s[i] == '-' then '_' else s[i]
  }

  /** A segment names a resource of the module: as it stands, or, failing that, with underscores for dashes. */
  predicate NamesResource(known: set<string>, segment: string, resource: string) {
    resource in known && (resource == segment || (segment !in known && Underscored(segment, resource)))
  }

  predicate NamesSome(known: set<string>, segment: string) {
    exists r | r in known :: NamesResource(known, segment, r)
  }

  /** What the first segment that names a resource names; the wildcard when none does. */
  predicate ResourceAsked(known: set<string>, segments: seq<string>, resource: string) {
    || (resource == "*" && forall i | 0 <= i < |segments| :: !NamesSome(known, segments[i]))
    || exists k | 0 <= k < |segments| :: FirstNamed(known, segments, resource, k)
  }

  predicate FirstNamed(known: set<string>, segments: seq<string>, resource: string, k: nat)
    requires k < |segments|
  {
    NamesResource(known, segments[k], resource) && forall i | 0 <= i < k :: !NamesSome(known, segments[i])
  }

  lemma NamesOnlyReplaced(known: set<string>, segment: string, r: string)
    requires NamesResource(known, segment, r)
    ensures r == if segment in known then segment else Replace(segment, '-', '_')
  {
  }

  lemma {:induction false} ResourceMeaning(known: set<string>, segments: seq<string>)
    ensures ResourceAsked(known, segments, ResourceAmong(known, segments))
  {
    if segments != [] {
      var s, u := segments[0], Replace(segments[0], '-', '_');
      var r := ResourceAmong(known, segments);
      if s in known {
        assert FirstNamed(known, segments, r, 0);
      } else if u in known {
        assert FirstNamed(known, segments, r, 0);
      } else {
        forall x | x in known ensures !NamesResource(known, s, x) {
          if NamesResource(known, s, x) { NamesOnlyReplaced(known, s, x); }
        }
        ResourceMeaning(known, segments[1..]);
        if k :| 0 <= k < |segments[1..]| && FirstNamed(known, segments[1..], r, k) {
          assert FirstNamed(known, segments, r, k + 1);
        }
      }
    }
  }

  // ---- Main results ----

  /** The subject asks for no other tenant, unless with the platform's role. */
  predicate InReach(p: Policy, req: Request, s: Subject) {
    req.requestedTenantID in {"", s.tenantID} || TrimSpace(s.role) == p.superAdminRole
  }

  predicate Admitted(p: Policy, req: Request, s: Subject) {
    TrimSpace(s.role) != "" && InReach(p, req, s)
  }

  lemma RequiredIsTheTriple(p: Policy, areaKey: string, rule: Rule, req: Request, s: Subject)
    requires API <= req.pathname && rule.kind == "module" && Admitted(p, req, s)
    ensures DecideRule(p, areaKey, rule, req, s).required == JoinTriple(RequiredTriple(p.resources, rule, areaKey, req))
  {
  }

  lemma TripleOfPath(resources: map<string, set<string>>, areaKey: string, rule: Rule, req: Request,
      segments: seq<string>)
    requires req.pathname == PathOf(areaKey, segments) && Free(segments, '/')
    ensures RequiredTriple(resources, rule, areaKey, req)
         == Triple(rule.area, if rule.action == "" then ActionAsked(req.verb, segments) else rule.action,
                   ResourceAmong(Lookup(resources, rule.area, {}), segments))
  {
    SegmentsOfPath(areaKey, segments);
    ActionMeaning(req.verb, segments);
  }

  /**
   What a module rule requires, said of the path's segments and the verb's spelling: the rule's own
   action, or the one the request asks for; and the first resource of the module its segments name.
   */
  lemma ModuleRuleRequires(p: Policy, areaKey: string, rule: Rule, req: Request, s: Subject, segments: seq<string>)
    returns (resource: string)
    requires req.pathname == PathOf(areaKey, segments) && Free(segments, '/')
    requires rule.kind == "module" && Admitted(p, req, s)
    ensures ResourceAsked(Lookup(p.resources, rule.area, {}), segments, resource)
    ensures DecideRule(p, areaKey, rule, req, s).required
         == rule.area + ":" + (if rule.action == "" then ActionAsked(req.verb, segments) else rule.action)
          + ":" + resource
  {
    RequiredIsTheTriple(p, areaKey, rule, req, s);
    TripleOfPath(p.resources, areaKey, rule, req, segments);
    resource := ResourceAmong(Lookup(p.resources, rule.area, {}), segments);
    ResourceMeaning(Lookup(p.resources, rule.area, {}), segments);
  }

  /** Every path that has an area is one the lemma above speaks of. */
  lemma PathHasSegments(areas: seq<Area>, pathname: string) returns (segments: seq<string>)
    requires AreaOf(areas, pathname) != ""
    ensures Free(segments, '/') && pathname == PathOf(AreaOf(areas, pathname), segments)
  {
    var areaKey := AreaOf(areas, pathname);
    var full := pathname[|API|..];
    assert pathname == API + full;
    TrimRightMeaning(full, '/');
    segments := TailSegments(areaKey, Rest(pathname), full);
  }

  lemma TailSegments(areaKey: string, rest: string, full: string) returns (segments: seq<string>)
    requires Covers(areaKey, rest) && rest <= full && forall i | |rest| <= i < |full| :: full[i] == '/'
    ensures Free(segments, '/') && API + full == PathOf(areaKey, segments)
  {
    assert areaKey <= rest && areaKey <= full;
    if |full| == |areaKey| {
      segments := [];
    } else {
      assert full[|areaKey|] == '/' by {
        if rest != areaKey {
          assert full[|areaKey|] == rest[|areaKey|] == (areaKey + "/")[|areaKey|];
        }
      }
      var more := full[|areaKey| + 1..];
      assert full == areaKey + ("/" + more);
      JoinedSplit(more, '/');
      segments := Split(more, '/');
      assert API + full == API + areaKey + ("/" + more);
    }
  }

  /** The subject's claim holds what this triple needs, and the trial limit does not stop it. */
  predicate Entitled(p: Policy, s: Subject, need: Triple) {
    && s.permissions.Some? && !TrialBlocks(p, s, need)
    && exists x | x in s.permissions.value :: Authorizes(p.moduleAliases, x, need)
  }

  /** A path's area and the rule of its area for the verb. */
  predicate Governs(p: Policy, req: Request, areaKey: string, rule: Rule) {
    AreaOf(p.areas, req.pathname) == areaKey != "" && RuleFor(p.areas, areaKey, req.verb) == rule
  }

  /**
   Who is allowed what, over all requests: under a module rule the platform's role, and whoever is
   admitted and entitled to the triple that the path's segments and the verb ask for; under any other
   rule whoever stands high enough.
   */
  lemma AllowedExactly(p: Policy, req: Request, s: Subject, areaKey: string, rule: Rule)
    returns (segments: seq<string>, need: Triple)
    requires Governs(p, req, areaKey, rule)
    requires ColonFree(Names(p.moduleAliases, rule.area)) && ':' !in rule.action
    ensures Free(segments, '/') && req.pathname == PathOf(areaKey, segments)
    ensures need.area == rule.area
      && need.action == (if rule.action == "" then ActionAsked(req.verb, segments) else rule.action)
      && ResourceAsked(Lookup(p.resources, rule.area, {}), segments, need.resource)
    ensures Decide(p, req, s).allow <==>
      if rule.kind == "module" then
        Admitted(p, req, s) && (TrimSpace(s.role) == p.superAdminRole || Entitled(p, s, need))
      else
        || NeededRank(p, rule, req) == 0
        || (RoleRank(p, TrimSpace(s.role)) >= NeededRank(p, rule, req) && InReach(p, req, s))
  {
    segments := PathHasSegments(p.areas, req.pathname);
    TripleOfPath(p.resources, areaKey, rule, req, segments);
    need := RequiredTriple(p.resources, rule, areaKey, req);
    ResourceMeaning(Lookup(p.resources, rule.area, {}), segments);
    ActionsHaveNoColon(req.verb, segments);
    if rule.kind == "module" {
      ModuleRuleMeaning(p, areaKey, rule, req, s);
    } else {
      OtherRulesAreALadder(p, areaKey, rule, req, s);
    }
  }

  lemma ActionsHaveNoColon(verb: string, segments: seq<string>)
    ensures ':' !in ActionAsked(verb, segments)
  {
    assert ActionAsked(verb, segments) in {"export", "approve", "create", "delete", "edit", "view"};
  }

  /** A path without an area is denied. */
  lemma UnmappedIsDenied(p: Policy, req: Request, s: Subject)
    requires AreaOf(p.areas, req.pathname) == ""
    ensures Decide(p, req, s) == Decision(false, "unmapped-route", "", None, "")
  {
  }

  /** The gates before the rule's own: delegation, a role, the tenant. */
  lemma EarlyReasons(p: Policy, areaKey: string, rule: Rule, req: Request, s: Subject)
    requires API <= req.pathname && (rule.kind == "external" || rule.kind == "partner" || !Admitted(p, req, s))
    ensures DecideRule(p, areaKey, rule, req, s) ==
      if rule.kind == "external" || rule.kind == "partner" then Decision(true, "delegated", areaKey, Some(rule), "")
      else if TrimSpace(s.role) == "" then Decision(false, "missing-role", areaKey, Some(rule), "")
      else Decision(false, "cross-tenant", areaKey, Some(rule), "")
  {
  }

  lemma ModuleReasons(p: Policy, areaKey: string, rule: Rule, req: Request, s: Subject)
    requires API <= req.pathname && Admitted(p, req, s) && rule.kind == "module"
    ensures var d := DecideRule(p, areaKey, rule, req, s);
      d.reason == if d.allow then "granted"
        else if s.permissions.None? then "no-permission-claim"
        else if TrialBlocks(p, s, RequiredTriple(p.resources, rule, areaKey, req)) then "trial-read-only"
        else "missing-permission"
  {
  }

  lemma LadderReasons(p: Policy, areaKey: string, rule: Rule, req: Request, s: Subject)
    requires API <= req.pathname && Admitted(p, req, s)
    requires rule.kind != "module" && rule.kind != "external" && rule.kind != "partner"
    ensures var d := DecideRule(p, areaKey, rule, req, s);
      d.reason == if d.allow then "granted"
        else Shut(rule.kind, RequiredAdminLevel(p.adminRoutes, req.pathname, req.verb), true, false)
  {
  }

  lemma DecisionNamesItsRule(p: Policy, areaKey: string, rule: Rule, req: Request, s: Subject)
    requires API <= req.pathname
    ensures DecideRule(p, areaKey, rule, req, s).area == areaKey
    ensures DecideRule(p, areaKey, rule, req, s).rule == Some(rule)
  {
    if rule.kind == "module" {
    } else if rule.kind == "admin-level" {
    }
  }

  /** What a decision says beside its answer: the area, the rule, and the first gate that shut. */
  lemma ReasonsNameTheGate(p: Policy, areaKey: string, rule: Rule, req: Request, s: Subject)
    requires API <= req.pathname
    ensures var d := DecideRule(p, areaKey, rule, req, s);
      && d.area == areaKey && d.rule == Some(rule)
      && d.reason ==
           if rule.kind == "external" || rule.kind == "partner" then "delegated"
           else if TrimSpace(s.role) == "" then "missing-role"
           else if !InReach(p, req, s) then "cross-tenant"
           else if d.allow then "granted"
           else Shut(rule.kind, RequiredAdminLevel(p.adminRoutes, req.pathname, req.verb), s.permissions.Some?,
                     TrialBlocks(p, s, RequiredTriple(p.resources, rule, areaKey, req)))
  {
    DecisionNamesItsRule(p, areaKey, rule, req, s);
    if rule.kind == "external" || rule.kind == "partner" || !Admitted(p, req, s) {
      EarlyReasons(p, areaKey, rule, req, s);
    } else if rule.kind == "module" {
      ModuleReasons(p, areaKey, rule, req, s);
    } else {
      LadderReasons(p, areaKey, rule, req, s);
    }
  }

  function Shut(kind: string, level: string, claim: bool, trial: bool): string {
    if kind == "platform" then "platform-only"
    else if kind == "tenant-admin" then "tenant-admin-only"
    else if kind == "admin-level" then "admin-level:" + level
    else if kind != "module" then "unknown-rule"
    else if !claim then "no-permission-claim"
    else if trial then "trial-read-only"
    else "missing-permission"
  }

  /** Every string parses to a triple of the action "view". */
  predicate OnlyViews(permissions: seq<string>) {
    forall x | x in permissions :: ParseTriple(x).Some? && ParseTriple(x).value.action == "view"
  }

  /**
   Who may only view changes nothing: under a module rule without an action of its own, a subject
   without the platform's role whose permissions are all for viewing is denied every POST, PUT,
   PATCH and DELETE, in any letter case, on every path.
   */
  lemma ViewersChangeNothing(p: Policy, req: Request, s: Subject)
    requires AreaOf(p.areas, req.pathname) != "" && Writes(req.verb)
    requires var rule := RuleFor(p.areas, AreaOf(p.areas, req.pathname), req.verb);
      rule.kind == "module" && rule.action == "" && ColonFree(Names(p.moduleAliases, rule.area))
    requires TrimSpace(s.role) != p.superAdminRole && s.permissions.Some? && OnlyViews(s.permissions.value)
    ensures !Decide(p, req, s).allow
  {
    var areaKey := AreaOf(p.areas, req.pathname);
    var rule := RuleFor(p.areas, areaKey, req.verb);
    var segments := PathHasSegments(p.areas, req.pathname);
    TripleOfPath(p.resources, areaKey, rule, req, segments);
    ActionsOfWriting(req.verb, segments);
    var need := RequiredTriple(p.resources, rule, areaKey, req);
    forall x | x in s.permissions.value
      ensures !Authorizes(p.moduleAliases, x, need)
    {
      ViewsAuthorizeNothingElse(p.moduleAliases, x, need);
    }
    ModuleRuleMeaning(p, areaKey, rule, req, s);
  }

  lemma ViewsAuthorizeNothingElse(aliases: map<string, seq<string>>, x: string, need: Triple)
    requires ParseTriple(x).Some? && ParseTriple(x).value.action == "view" && need.action != "view"
    ensures !Authorizes(aliases, x, need)
  {
    assert |"view"| != |ANY|;
  }

  lemma ActionsOfWriting(verb: string, segments: seq<string>)
    requires Writes(verb)
    ensures ActionAsked(verb, segments) != "view" && ':' !in ActionAsked(verb, segments)
  {
    assert ActionAsked(verb, segments) in {"export", "approve", "create", "delete", "edit"};
    assert "export"[0] != "view"[0] && "approve"[0] != "view"[0] && "create"[0] != "view"[0];
  }

  // ---- Administration levels ----

  /** A path under /api/admin/ fits a template: segment by segment, [id] standing for any that is not empty. */
  predicate FitsTemplate(template: seq<string>, segments: seq<string>) {
    && |segments| == |template|
    && forall i | 0 <= i < |template| :: if template[i] == "[id]" then segments[i] != "" else segments[i] == template[i]
  }

  /** The segments make up the path, but for one slash at its end. */
  predicate Spells(rel: string, segments: seq<string>) {
    segments != [] && Free(segments, '/') && rel in {Joined(segments, '/'), Joined(segments, '/') + "/"}
  }

  lemma TemplateMeaning(template: seq<string>, rel: string)
    requires template != [] && Free(template, '/')
    ensures TemplateMatches(Joined(template, '/'), rel) <==>
      exists segments :: Spells(rel, segments) && FitsTemplate(template, segments)
  {
    if TemplateMatches(Joined(template, '/'), rel) {
      var segments := MatchIsSpelled(template, rel);
    }
    forall segments | Spells(rel, segments) && FitsTemplate(template, segments)
      ensures TemplateMatches(Joined(template, '/'), rel)
    {
      SpelledIsMatch(template, rel, segments);
    }
  }

  lemma MatchIsSpelled(template: seq<string>, rel: string) returns (segments: seq<string>)
    requires template != [] && Free(template, '/') && TemplateMatches(Joined(template, '/'), rel)
    ensures Spells(rel, segments) && FitsTemplate(template, segments)
  {
    SplitJoined(template, '/');
    if SegmentsMatch(template, Split(rel, '/')) {
      JoinedSplit(rel, '/');
      segments := Split(rel, '/');
    } else {
      var cut := rel[..|rel| - 1];
      assert rel == cut + "/";
      JoinedSplit(cut, '/');
      segments := Split(cut, '/');
    }
  }

  lemma SpelledIsMatch(template: seq<string>, rel: string, segments: seq<string>)
    requires template != [] && Free(template, '/') && Spells(rel, segments) && FitsTemplate(template, segments)
    ensures TemplateMatches(Joined(template, '/'), rel)
  {
    SplitJoined(template, '/');
    SplitJoined(segments, '/');
    if rel != Joined(segments, '/') {
      assert rel[..|rel| - 1] == Joined(segments, '/');
    }
  }

  /** The route of a path is the first listed whose template it fits. */
  predicate IsRoute(routes: seq<AdminRoute>, rel: string, k: nat) {
    && k < |routes| && TemplateMatches(routes[k].template, rel)
    && forall i | 0 <= i < k :: !TemplateMatches(routes[i].template, rel)
  }

  lemma {:induction false} LevelOfRoute(routes: seq<AdminRoute>, rel: string, verb: string, k: nat)
    requires IsRoute(routes, rel, k)
    ensures LevelAmong(routes, rel, verb) == Lookup(routes[k].methods, verb, "platform")
  {
    if k > 0 {
      assert IsRoute(routes[1..], rel, k - 1);
      LevelOfRoute(routes[1..], rel, verb, k - 1);
    }
  }

  lemma {:induction false} LevelWithoutRoute(routes: seq<AdminRoute>, rel: string, verb: string)
    requires forall k | 0 <= k < |routes| :: !TemplateMatches(routes[k].template, rel)
    ensures LevelAmong(routes, rel, verb) == "platform"
  {
    if routes != [] {
      LevelWithoutRoute(routes[1..], rel, verb);
    }
  }

  /**
   The level of an administration path: none for OPTIONS; else what the first route it fits lists
   for the verb in capitals, HEAD read as GET; and the platform's when there is no route or no entry.
   */
  lemma AdminLevelMeaning(routes: seq<AdminRoute>, rel: string, verb: string, asked: string)
    requires EqualFold(verb, asked) && forall i | 0 <= i < |asked| :: !('a' <= asked[i] <= 'z')
    ensures var level := RequiredAdminLevel(routes, "/api/admin/" + rel, verb);
      var entry := if asked == "HEAD" then "GET" else asked;
      if asked == "OPTIONS" then level == ""
      else if exists k: nat :: IsRoute(routes, rel, k) then
        exists k: nat :: IsRoute(routes, rel, k)
          && level == if entry in routes[k].methods then routes[k].methods[entry] else "platform"
      else level == "platform"
  {
    ToUpperMeaning(verb, asked);
    assert ("/api/admin/" + rel)[|ADMIN|..] == rel;
    var entry := if asked == "HEAD" then "GET" else asked;
    if k: nat :| IsRoute(routes, rel, k) {
      LevelOfRoute(routes, rel, entry, k);
    } else {
      NoRoute(routes, rel);
      LevelWithoutRoute(routes, rel, entry);
    }
  }

  lemma {:induction false} NoRoute(routes: seq<AdminRoute>, rel: string)
    requires !exists k: nat :: IsRoute(routes, rel, k)
    ensures forall k | 0 <= k < |routes| :: !TemplateMatches(routes[k].template, rel)
  {
    var k := 0;
    while k < |routes|
      invariant 0 <= k <= |routes|
      invariant forall i | 0 <= i < k :: !TemplateMatches(routes[i].template, rel)
    {
      assert !IsRoute(routes, rel, k);
      k := k + 1;
    }
  }
}
