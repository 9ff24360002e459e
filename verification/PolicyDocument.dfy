/** backend/authz/policy.go, Parse: from the policy document to the tables the decision reads. */
module PolicyDocument {
  import opened Strings
  import Policy
  import PermissionClaim
  import Fnv

  datatype Document = Document(
    policyVersion: string,
    catalogueVersion: string,
    catalogue: seq<string>,
    moduleAliases: map<string, seq<string>>,
    trialFreeModules: seq<string>,
    superAdminRole: string,
    tenantAdminRole: string,
    areas: seq<Policy.Area>,
    adminRoutes: seq<Policy.AdminRoute>)

  datatype Result = Success(policy: Policy.Policy, prefixes: map<string, nat>) | Incomplete | VersionMismatch

  /** The catalogue names this resource of this module (a wildcard is not a resource). */
  predicate Names(catalogue: seq<string>, area: string, resource: string) {
    exists key | key in catalogue :: NamesIn(key, area, resource)
  }

  predicate NamesIn(key: string, area: string, resource: string) {
    var t := ParseTriple(key);
    t.Some? && t.value.area == area && t.value.resource == resource && resource != Policy.ANY
  }

  /** In the catalogue's own strings: some action of the module's on the resource is listed, and it is no wildcard. */
  lemma NamesMeaning(catalogue: seq<string>, area: string, resource: string)
    ensures Names(catalogue, area, resource) <==>
      && resource != "*" && ':' !in area
      && exists action :: ':' !in action && JoinTriple(Triple(area, action, resource)) in catalogue
  {
    if Names(catalogue, area, resource) {
      var key :| key in catalogue && NamesIn(key, area, resource);
      var t := ParseTriple(key).value;
      ParsedNamesHaveNoColon(key);
      JoinedIffParsed(key, t);
      assert ':' !in t.action && JoinTriple(Triple(area, t.action, resource)) in catalogue;
    }
    forall action | ':' !in area && ':' !in action && resource != "*"
        && JoinTriple(Triple(area, action, resource)) in catalogue
      ensures Names(catalogue, area, resource)
    {
      ParseJoin(Triple(area, action, resource));
      assert NamesIn(JoinTriple(Triple(area, action, resource)), area, resource);
    }
  }

  lemma ParsedNamesHaveNoColon(key: string)
    requires ParseTriple(key).Some?
    ensures ':' !in ParseTriple(key).value.area && ':' !in ParseTriple(key).value.action
  {
  }

  lemma NamesGrow(catalogue: seq<string>, key: string, area: string, resource: string)
    ensures Names(catalogue + [key], area, resource) <==>
      Names(catalogue, area, resource) || NamesIn(key, area, resource)
  {
    assert key in catalogue + [key];
    assert forall k :: k in catalogue + [key] <==> k in catalogue || k == key;
  }

  method BuildResources(catalogue: seq<string>) returns (resources: map<string, set<string>>)
    ensures forall area, resource ::
      resource in Policy.Lookup(resources, area, {}) <==> Names(catalogue, area, resource)
    ensures forall area | area in resources :: resources[area] != {}
  {
    resources := map[];
    var i := 0;
    while i < |catalogue|
      invariant 0 <= i <= |catalogue|
      invariant forall area, resource ::
        resource in Policy.Lookup(resources, area, {}) <==> Names(catalogue[..i], area, resource)
      invariant forall area | area in resources :: resources[area] != {}
    {
      var key := catalogue[i];
      ghost var before := resources;
      assert catalogue[..i + 1] == catalogue[..i] + [key];
      var parts := ParseTriple(key);
      if parts.Some? && parts.value.resource != Policy.ANY {
        var known := if parts.value.area in resources then resources[parts.value.area] else {};
        resources := resources[parts.value.area := known + {parts.value.resource}];
      }
      forall area, resource
        ensures resource in Policy.Lookup(resources, area, {}) <==> Names(catalogue[..i + 1], area, resource)
      {
        NamesGrow(catalogue[..i], key, area, resource);
        assert resource in Policy.Lookup(before, area, {}) <==> Names(catalogue[..i], area, resource);
      }
      i := i + 1;
    }
    assert catalogue[..|catalogue|] == catalogue;
  }

  /**
   A document is accepted exactly when it is complete and its catalogue version is the version of
   its whole catalogue. The areas are arranged longest first, the prefix table knows every
   version, and the resource table is the catalogue's.
   */
  method Parse(d: Document) returns (r: Result)
    ensures r.Incomplete? <==> d.policyVersion == "" || d.catalogueVersion == "" || d.catalogue == [] || d.areas == []
    ensures r.Success? <==>
      !r.Incomplete? && d.catalogueVersion == PermissionClaim.Version(Fnv.Digest, d.catalogue)
    ensures r.Success? ==>
      && PermissionClaim.IsPrefixTable(Fnv.Digest, r.prefixes, d.catalogue)
      && r.policy.areas == Policy.Arranged(d.areas)
      && r.policy.(areas := [], resources := map[])
           == Policy.Policy.Policy([], d.moduleAliases, d.trialFreeModules, d.superAdminRole, d.tenantAdminRole,
             d.adminRoutes, map[])
      && forall area, resource ::
           resource in Policy.Lookup(r.policy.resources, area, {}) <==> Names(d.catalogue, area, resource)
  {
    if d.policyVersion == "" || d.catalogueVersion == "" || |d.catalogue| == 0 || |d.areas| == 0 {
      return Incomplete;
    }
    var prefixes := PermissionClaim.BuildPrefixTable(Fnv.Digest, d.catalogue);
    WholeCatalogueVersion(d.catalogue, d.catalogueVersion);
    if d.catalogueVersion !in prefixes || prefixes[d.catalogueVersion] != |d.catalogue| {
      return VersionMismatch;
    }
    var resources := BuildResources(d.catalogue);
    r := Success(Policy.Policy.Policy(Policy.Arranged(d.areas), d.moduleAliases, d.trialFreeModules,
                                      d.superAdminRole, d.tenantAdminRole, d.adminRoutes, resources),
                 prefixes);
  }

  lemma WholeCatalogueVersion(catalogue: seq<string>, v: string)
    requires catalogue != []
    ensures PermissionClaim.SignedLength(Fnv.Digest, catalogue, v) == |catalogue| <==>
      v == PermissionClaim.Version(Fnv.Digest, catalogue)
  {
    assert catalogue[..|catalogue|] == catalogue;
  }
}
