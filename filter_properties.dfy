/**
 What the filtering pass guarantees: the key filter is exactly a restriction and is idempotent;
 the identifier set is what an independent, per-entity reading of the require lists gives; an
 extension outside the required set and a version outside the Vulkan API contribute nothing;
 a larger required set only adds; and filtering twice is filtering once.
 */
module FilterProperties {
  import opened RegistryModel
  import opened Lists
  import opened Filter

  // ---------------------------------------------------------------------------------------------
  // The key filter

  /** The key filter is exactly the restriction: any submap with those keys is that filter. */
  lemma FilterEntitiesIsRestriction<T>(m: map<Identifier, T>, identifiers: set<Identifier>, r: map<Identifier, T>)
    ensures KeyFiltered(r, m, identifiers) <==> r == FilterEntities(m, identifiers)
  {
  }

  /** Filtering an already filtered map with the same identifiers returns the same map. */
  lemma FilterEntitiesIdempotent<T>(m: map<Identifier, T>, identifiers: set<Identifier>)
    ensures FilterEntities(FilterEntities(m, identifiers), identifiers) == FilterEntities(m, identifiers)
  {
  }

  /** More identifiers keep more entries, with the same values. */
  lemma FilterEntitiesMonotone<T>(m: map<Identifier, T>, ids1: set<Identifier>, ids2: set<Identifier>)
    requires ids1 <= ids2
    ensures IsSubmap(FilterEntities(m, ids1), FilterEntities(m, ids2))
  {
  }

  // ---------------------------------------------------------------------------------------------
  // Reference definitions of what one version or one extension requires

  /** Everything one require list names: its commands, its types and the names of its values. */
  function RequiredByList(rl: RequireList): set<Identifier>
  {
    (set c | c in rl.commands) + (set t | t in rl.types) + (set v | v in rl.values :: v.name)
  }

  /** What a selected extension's require list contributes: commands only when admitted. */
  function ContributedByList(rl: RequireList, required: set<string>): set<Identifier>
  {
    (if CommandsAdmitted(rl, required) then set c | c in rl.commands else {})
      + (set t | t in rl.types) + (set v | v in rl.values :: v.name)
  }

  /** Everything a version's require lists name, read list by list. */
  function RequiredBy(rls: seq<RequireList>): set<Identifier>
  {
    if |rls| == 0 then {} else RequiredBy(rls[..|rls| - 1]) + RequiredByList(rls[|rls| - 1])
  }

  /** Everything a selected extension's require lists contribute, read list by list. */
  function ContributedBy(rls: seq<RequireList>, required: set<string>): set<Identifier>
  {
    if |rls| == 0 then {}
    else ContributedBy(rls[..|rls| - 1], required) + ContributedByList(rls[|rls| - 1], required)
  }

  lemma {:induction false} RequiredByMembership(rls: seq<RequireList>, x: Identifier)
    ensures x in RequiredBy(rls) <==> exists i :: 0 <= i < |rls| && x in RequiredByList(rls[i])
  {
    if |rls| > 0 {
      var n := |rls| - 1;
      RequiredByMembership(rls[..n], x);
      if x in RequiredBy(rls[..n]) {
        var i :| 0 <= i < n && x in RequiredByList(rls[..n][i]);
        assert rls[..n][i] == rls[i];
      }
      if i :| 0 <= i < |rls| && x in RequiredByList(rls[i]) {
        if i < n {
          assert rls[..n][i] == rls[i];
        }
      }
    }
  }

  lemma {:induction false} ContributedByMembership(rls: seq<RequireList>, required: set<string>, x: Identifier)
    ensures x in ContributedBy(rls, required) <==> exists i :: 0 <= i < |rls| && x in ContributedByList(rls[i], required)
  {
    if |rls| > 0 {
      var n := |rls| - 1;
      ContributedByMembership(rls[..n], required, x);
      if x in ContributedBy(rls[..n], required) {
        var i :| 0 <= i < n && x in ContributedByList(rls[..n][i], required);
        assert rls[..n][i] == rls[i];
      }
      if i :| 0 <= i < |rls| && x in ContributedByList(rls[i], required) {
        if i < n {
          assert rls[..n][i] == rls[i];
        }
      }
    }
  }

  // ---------------------------------------------------------------------------------------------
  // The identifier set

  /**
   The core identifiers are exactly what the Vulkan API versions require, with no `depends`
   gating; a version that is not a Vulkan API version contributes nothing.
   */
  lemma CoreIdentifiersSpec(versions: map<Identifier, Version>, isVulkanApi: ApiPredicate, x: Identifier)
    ensures x in CoreIdentifiers(FilterVersions(versions, isVulkanApi)) <==>
      exists k :: k in versions && isVulkanApi.version(versions[k]) && x in RequiredBy(versions[k].requireList)
  {
    var fv := FilterVersions(versions, isVulkanApi);
    var rls := VersionRequireLists(fv);
    if x in CoreIdentifiers(fv) {
      var rl :| rl in rls && x in RequiredByList(rl);
      var k :| k in fv && rl in fv[k].requireList;
      var i :| 0 <= i < |versions[k].requireList| && versions[k].requireList[i] == rl;
      RequiredByMembership(versions[k].requireList, x);
    }
    if k :| k in versions && isVulkanApi.version(versions[k]) && x in RequiredBy(versions[k].requireList) {
      RequiredByMembership(versions[k].requireList, x);
      var i :| 0 <= i < |versions[k].requireList| && x in RequiredByList(versions[k].requireList[i]);
      var rl := versions[k].requireList[i];
      assert rl in fv[k].requireList;
      assert rl in rls;
    }
  }

  /**
   The extension identifiers are exactly what the extensions named in the required set
   contribute: every type and value of each of their require lists, and the commands of those
   require lists whose `depends` is empty or a required name. An extension not named in the set
   contributes nothing, whatever its `depends`.
   */
  lemma ExtensionIdentifiersSpec(extensions: map<Identifier, Extension>, required: set<string>, x: Identifier)
    ensures x in ExtensionIdentifiers(FilterExtension(extensions, required), required) <==>
      exists k :: k in extensions && extensions[k].name in required && x in ContributedBy(extensions[k].requireList, required)
  {
    var fe := FilterExtension(extensions, required);
    var rls := ExtensionRequireLists(fe);
    if x in ExtensionIdentifiers(fe, required) {
      var rl :| rl in rls && x in ContributedByList(rl, required);
      var k :| k in fe && rl in fe[k].requireList;
      var i :| 0 <= i < |extensions[k].requireList| && extensions[k].requireList[i] == rl;
      ContributedByMembership(extensions[k].requireList, required, x);
    }
    if k :| k in extensions && extensions[k].name in required && x in ContributedBy(extensions[k].requireList, required) {
      ContributedByMembership(extensions[k].requireList, required, x);
      var i :| 0 <= i < |extensions[k].requireList| && x in ContributedByList(extensions[k].requireList[i], required);
      var rl := extensions[k].requireList[i];
      assert rl in fe[k].requireList;
      assert rl in rls;
    }
  }

  /**
   The whole identifier set: an identifier is required exactly when a Vulkan API version's require
   lists name it, or a selected extension's require lists contribute it.
   */
  lemma IdentifiersSpec(registry: Registry, required: set<string>, isVulkanApi: ApiPredicate, x: Identifier)
    ensures x in Identifiers(registry, required, isVulkanApi) <==>
      || (exists k :: k in registry.versions && isVulkanApi.version(registry.versions[k])
             && x in RequiredBy(registry.versions[k].requireList))
      || (exists k :: k in registry.extensions && registry.extensions[k].name in required
             && x in ContributedBy(registry.extensions[k].requireList, required))
  {
    CoreIdentifiersSpec(registry.versions, isVulkanApi, x);
    ExtensionIdentifiersSpec(registry.extensions, required, x);
  }

  /**
   A require list of a selected extension: its types and values are always required; its
   commands are required when its `depends` is empty or is one of the required names.
   */
  lemma SelectedRequireListContributes(extensions: map<Identifier, Extension>, required: set<string>, k: Identifier, i: nat)
    requires k in extensions && extensions[k].name in required
    requires i < |extensions[k].requireList|
    ensures var rl := extensions[k].requireList[i];
      var ids := ExtensionIdentifiers(FilterExtension(extensions, required), required);
      && (forall t :: t in rl.types ==> t in ids)
      && (forall v :: v in rl.values ==> v.name in ids)
      && (CommandsAdmitted(rl, required) ==> forall c :: c in rl.commands ==> c in ids)
  {
    var rl := extensions[k].requireList[i];
    var fe := FilterExtension(extensions, required);
    assert rl in fe[k].requireList;
    assert rl in ExtensionRequireLists(fe);
  }

  /**
   A command that only a gated-out require list names (its `depends` is neither empty nor a
   required name), and that nothing else names, is not required.
   */
  lemma GatedCommandExcluded(extensions: map<Identifier, Extension>, required: set<string>, x: Identifier)
    requires forall k, rl :: k in extensions && rl in extensions[k].requireList ==>
      x !in rl.types && (forall v :: v in rl.values ==> v.name != x) && (x in rl.commands ==> !CommandsAdmitted(rl, required))
    ensures x !in ExtensionIdentifiers(FilterExtension(extensions, required), required)
  {
  }

  // ---------------------------------------------------------------------------------------------
  // What does not matter

  /** An extension not named in the required set changes nothing, whatever it requires. */
  lemma UnselectedExtensionIgnored(registry: Registry, required: set<string>, isVulkanApi: ApiPredicate, k: Identifier, e: Extension)
    requires e.name !in required
    ensures FilterRegistryWith(registry.(extensions := registry.extensions[k := e]), required, isVulkanApi)
         == FilterRegistryWith(registry.(extensions := registry.extensions - {k}), required, isVulkanApi)
  {
    var r1, r2 := registry.(extensions := registry.extensions[k := e]), registry.(extensions := registry.extensions - {k});
    assert FilterExtension(r1.extensions, required) == FilterExtension(r2.extensions, required);
    assert Identifiers(r1, required, isVulkanApi) == Identifiers(r2, required, isVulkanApi);
    assert Prune(r1, Identifiers(r1, required, isVulkanApi), isVulkanApi).(extensions := r2.extensions)
        == Prune(r2, Identifiers(r2, required, isVulkanApi), isVulkanApi);
  }

  /** A version that is not a Vulkan API version changes nothing, whatever it requires. */
  lemma RejectedVersionIgnored(registry: Registry, required: set<string>, isVulkanApi: ApiPredicate, k: Identifier, v: Version)
    requires !isVulkanApi.version(v)
    ensures FilterRegistryWith(registry.(versions := registry.versions[k := v]), required, isVulkanApi)
         == FilterRegistryWith(registry.(versions := registry.versions - {k}), required, isVulkanApi)
  {
    assert FilterVersions(registry.versions[k := v], isVulkanApi) == FilterVersions(registry.versions - {k}, isVulkanApi);
  }

  // ---------------------------------------------------------------------------------------------
  // Monotonicity

  /** A larger required extension set requires at least the same identifiers. */
  lemma IdentifiersMonotone(registry: Registry, s1: set<string>, s2: set<string>, isVulkanApi: ApiPredicate)
    requires s1 <= s2
    ensures Identifiers(registry, s1, isVulkanApi) <= Identifiers(registry, s2, isVulkanApi)
  {
    var fe1, fe2 := FilterExtension(registry.extensions, s1), FilterExtension(registry.extensions, s2);
    var rls1, rls2 := ExtensionRequireLists(fe1), ExtensionRequireLists(fe2);
    assert rls1 <= rls2 by {
      forall rl | rl in rls1 ensures rl in rls2 {
        var k :| k in fe1 && rl in fe1[k].requireList;
        assert k in fe2;
      }
    }
    assert ExtensionIdentifiers(fe1, s1) <= ExtensionIdentifiers(fe2, s2) by {
      var a1 := set rl | rl in rls1 && CommandsAdmitted(rl, s1);
      var a2 := set rl | rl in rls2 && CommandsAdmitted(rl, s2);
      assert a1 <= a2;
    }
  }

  /** With a larger required extension set every category map of the result only gains entries. */
  lemma FilterRegistryMonotone(registry: Registry, s1: set<string>, s2: set<string>, isVulkanApi: ApiPredicate)
    requires s1 <= s2
    ensures var r1, r2 := FilterRegistryWith(registry, s1, isVulkanApi), FilterRegistryWith(registry, s2, isVulkanApi);
      && IsSubmap(r1.aliases, r2.aliases)
      && IsSubmap(r1.basetypes, r2.basetypes)
      && IsSubmap(r1.bitmasks, r2.bitmasks)
      && IsSubmap(r1.constants, r2.constants)
      && IsSubmap(r1.commands, r2.commands)
      && IsSubmap(r1.commandAliases, r2.commandAliases)
      && IsSubmap(r1.enums, r2.enums)
      && IsSubmap(r1.extensions, r2.extensions)
      && IsSubmap(r1.functions, r2.functions)
      && IsSubmap(r1.handles, r2.handles)
      && IsSubmap(r1.structs, r2.structs)
      && IsSubmap(r1.unions, r2.unions)
      && r1.versions == r2.versions
  {
    IdentifiersMonotone(registry, s1, s2, isVulkanApi);
  }

  // ---------------------------------------------------------------------------------------------
  // Idempotence

  lemma BitmasksIdempotent(m: map<Identifier, Bitmask>, ids: set<Identifier>, isVulkanApi: ApiPredicate)
    ensures var once := FilterBitmasks(FilterEntities(m, ids), isVulkanApi);
      FilterBitmasks(FilterEntities(once, ids), isVulkanApi) == once
  {
    var once := FilterBitmasks(FilterEntities(m, ids), isVulkanApi);
    var twice := FilterBitmasks(FilterEntities(once, ids), isVulkanApi);
    forall k | k in once ensures twice[k] == once[k] {
      KeepIdempotent(m[k].bitflags, isVulkanApi.bitflag);
    }
  }

  lemma CommandsIdempotent(m: map<Identifier, Command>, ids: set<Identifier>, isVulkanApi: ApiPredicate)
    ensures var once := FilterCommands(FilterEntities(m, ids), isVulkanApi);
      FilterCommands(FilterEntities(once, ids), isVulkanApi) == once
  {
    var once := FilterCommands(FilterEntities(m, ids), isVulkanApi);
    var twice := FilterCommands(FilterEntities(once, ids), isVulkanApi);
    forall k | k in once ensures twice[k] == once[k] {
      KeepIdempotent(m[k].params, isVulkanApi.param);
    }
  }

  lemma EnumsIdempotent(m: map<Identifier, Enum>, ids: set<Identifier>, isVulkanApi: ApiPredicate)
    ensures var once := FilterEnums(FilterEntities(m, ids), isVulkanApi);
      FilterEnums(FilterEntities(once, ids), isVulkanApi) == once
  {
    var once := FilterEnums(FilterEntities(m, ids), isVulkanApi);
    var twice := FilterEnums(FilterEntities(once, ids), isVulkanApi);
    forall k | k in once ensures twice[k] == once[k] {
      KeepIdempotent(m[k].variants, isVulkanApi.variant);
    }
  }

  lemma StructuresIdempotent(m: map<Identifier, Structure>, ids: set<Identifier>, isVulkanApi: ApiPredicate)
    ensures var once := FilterStructures(FilterEntities(m, ids), isVulkanApi);
      FilterStructures(FilterEntities(once, ids), isVulkanApi) == once
  {
    var once := FilterStructures(FilterEntities(m, ids), isVulkanApi);
    var twice := FilterStructures(FilterEntities(once, ids), isVulkanApi);
    forall k | k in once ensures twice[k] == once[k] {
      KeepIdempotent(m[k].members, isVulkanApi.member);
    }
  }

  /** The filtered registry requires the same identifiers as the registry it came from. */
  lemma IdentifiersOfFiltered(registry: Registry, required: set<string>, isVulkanApi: ApiPredicate)
    ensures Identifiers(FilterRegistryWith(registry, required, isVulkanApi), required, isVulkanApi)
         == Identifiers(registry, required, isVulkanApi)
  {
    var once := FilterRegistryWith(registry, required, isVulkanApi);
    assert FilterVersions(once.versions, isVulkanApi) == FilterVersions(registry.versions, isVulkanApi);
    assert FilterExtension(once.extensions, required) == FilterExtension(registry.extensions, required);
  }

  /** Pruning a pruned registry again to the same identifiers changes nothing. */
  lemma PruneIdempotent(registry: Registry, ids: set<Identifier>, isVulkanApi: ApiPredicate)
    ensures Prune(Prune(registry, ids, isVulkanApi), ids, isVulkanApi) == Prune(registry, ids, isVulkanApi)
  {
    BitmasksIdempotent(registry.bitmasks, ids, isVulkanApi);
    CommandsIdempotent(registry.commands, ids, isVulkanApi);
    EnumsIdempotent(registry.enums, ids, isVulkanApi);
    StructuresIdempotent(registry.structs, ids, isVulkanApi);
  }

  /** The filtered registry's versions and extensions pass their own filters unchanged. */
  lemma FilteredVersionsAndExtensionsStable(registry: Registry, required: set<string>, isVulkanApi: ApiPredicate)
    ensures var once := FilterRegistryWith(registry, required, isVulkanApi);
      && FilterExtension(once.extensions, required) == once.extensions
      && FilterVersions(once.versions, isVulkanApi) == once.versions
  {
  }

  /** Pruning does not look at the extensions and versions of a registry. */
  lemma PruneIgnoresExtensionsAndVersions(registry: Registry, ids: set<Identifier>, isVulkanApi: ApiPredicate,
                                          extensions: map<Identifier, Extension>, versions: map<Identifier, Version>)
    ensures Prune(registry.(extensions := extensions, versions := versions), ids, isVulkanApi)
         == Prune(registry, ids, isVulkanApi).(extensions := extensions, versions := versions)
  {
  }

  /** Filtering a filtered registry again with the same policy returns it unchanged. */
  lemma FilterRegistryIdempotent(registry: Registry, required: set<string>, isVulkanApi: ApiPredicate)
    ensures var once := FilterRegistryWith(registry, required, isVulkanApi);
      FilterRegistryWith(once, required, isVulkanApi) == once
  {
    var once := FilterRegistryWith(registry, required, isVulkanApi);
    var ids := Identifiers(registry, required, isVulkanApi);
    var pruned := Prune(registry, ids, isVulkanApi);
    var exts, vers := once.extensions, once.versions;
    IdentifiersOfFiltered(registry, required, isVulkanApi);
    FilteredVersionsAndExtensionsStable(registry, required, isVulkanApi);
    calc {
      FilterRegistryWith(once, required, isVulkanApi);
      Prune(once, ids, isVulkanApi).(extensions := exts, versions := vers);
      { assert once == pruned.(extensions := exts, versions := vers);
        PruneIgnoresExtensionsAndVersions(pruned, ids, isVulkanApi, exts, vers); }
      Prune(pruned, ids, isVulkanApi).(extensions := exts, versions := vers);
      { PruneIdempotent(registry, ids, isVulkanApi); }
      pruned.(extensions := exts, versions := vers);
    }
  }
}
