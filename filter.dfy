/**
 The registry filtering pass: it reduces the full registry to what `vulkanalia` supports, namely
 the Vulkan versions plus a fixed set of extensions, and everything those require.

 It works in four steps: keep the versions that are Vulkan API versions; keep the extensions named
 in the required set; collect the command, type and value identifiers that the kept versions and
 extensions require (an extension's commands only from require lists whose `depends` is empty or
 is exactly one required name); and restrict every entity map to those identifiers, filtering
 the children of bitmasks, commands, enums and structures down to their Vulkan API members.
 */
module Filter {
  import opened RegistryModel
  import opened Lists

  /** The extensions `vulkanalia` generates bindings for. */
  const RequiredExtensions: set<string> := {
    "VK_KHR_surface",
    "VK_KHR_swapchain",
    "VK_KHR_xcb_surface",
    "VK_KHR_xlib_surface",
    "VK_KHR_wayland_surface",
    "VK_KHR_unified_image_layouts",
    "VK_EXT_debug_utils",
    "VK_EXT_blend_operation_advanced",
    "VK_EXT_shader_object"
  }

  // ---------------------------------------------------------------------------------------------
  // Map filters

  /** The versions that are Vulkan API versions, unchanged. */
  function FilterVersions(versions: map<Identifier, Version>, isVulkanApi: ApiPredicate): (r: map<Identifier, Version>)
    ensures forall k :: k in r <==> k in versions && isVulkanApi.version(versions[k])
    ensures forall k :: k in r ==> r[k] == versions[k]
  {
    map k | k in versions && isVulkanApi.version(versions[k]) :: versions[k]
  }

  /** The extensions whose own name (not their key) is in `names`, unchanged. */
  function FilterExtension(extensions: map<Identifier, Extension>, names: set<string>): (r: map<Identifier, Extension>)
    ensures forall k :: k in r <==> k in extensions && extensions[k].name in names
    ensures forall k :: k in r ==> r[k] == extensions[k]
  {
    map k | k in extensions && extensions[k].name in names :: extensions[k]
  }

  /** The entries of `m` whose key is one of `identifiers`, unchanged. */
  function FilterEntities<T>(m: map<Identifier, T>, identifiers: set<Identifier>): (r: map<Identifier, T>)
    ensures r.Keys == m.Keys * identifiers
    ensures forall k :: k in r ==> r[k] == m[k]
  {
    map k | k in m && k in identifiers :: m[k]
  }

  /** The same key filter on a map from identifiers to identifiers (the command aliases). */
  function FilterIdentifiers(m: map<Identifier, Identifier>, identifiers: set<Identifier>): (r: map<Identifier, Identifier>)
    ensures r.Keys == m.Keys * identifiers
    ensures forall k :: k in r ==> r[k] == m[k]
  {
    FilterEntities(m, identifiers)
  }

  // ---------------------------------------------------------------------------------------------
  // Child filters

  /**
   Replaces the child list of every entity by its children that satisfy `keep`, in order, through
   the accessors `get` and `put`. Every key stays, even when none of its children do.
   */
  function FilterChildren<T, C>(m: map<Identifier, T>, get: T -> seq<C>, put: (T, seq<C>) -> T, keep: C -> bool): (r: map<Identifier, T>)
    ensures r.Keys == m.Keys
    ensures forall k :: k in r ==> r[k] == put(m[k], Keep(get(m[k]), keep))
  {
    map k | k in m :: WithKeptChildren(m[k], get, put, keep)
  }

  /** One entity with its child list replaced by the children that satisfy `keep`. */
  function WithKeptChildren<T, C>(e: T, get: T -> seq<C>, put: (T, seq<C>) -> T, keep: C -> bool): T
  {
    put(e, Keep(get(e), keep))
  }

  function FilterBitmasks(bitmasks: map<Identifier, Bitmask>, isVulkanApi: ApiPredicate): (r: map<Identifier, Bitmask>)
    ensures r.Keys == bitmasks.Keys
    ensures forall k :: k in r ==> r[k].name == bitmasks[k].name
    ensures forall k :: k in r ==> r[k].bitflags == Keep(bitmasks[k].bitflags, isVulkanApi.bitflag)
  {
    FilterChildren(bitmasks, (b: Bitmask) => b.bitflags, (b: Bitmask, c: seq<Bitflag>) => b.(bitflags := c), isVulkanApi.bitflag)
  }

  function FilterCommands(commands: map<Identifier, Command>, isVulkanApi: ApiPredicate): (r: map<Identifier, Command>)
    ensures r.Keys == commands.Keys
    ensures forall k :: k in r ==> r[k].name == commands[k].name
    ensures forall k :: k in r ==> r[k].params == Keep(commands[k].params, isVulkanApi.param)
  {
    FilterChildren(commands, (c: Command) => c.params, (c: Command, ps: seq<Param>) => c.(params := ps), isVulkanApi.param)
  }

  function FilterEnums(enums: map<Identifier, Enum>, isVulkanApi: ApiPredicate): (r: map<Identifier, Enum>)
    ensures r.Keys == enums.Keys
    ensures forall k :: k in r ==> r[k].name == enums[k].name
    ensures forall k :: k in r ==> r[k].variants == Keep(enums[k].variants, isVulkanApi.variant)
  {
    FilterChildren(enums, (e: Enum) => e.variants, (e: Enum, vs: seq<Variant>) => e.(variants := vs), isVulkanApi.variant)
  }

  function FilterStructures(structs: map<Identifier, Structure>, isVulkanApi: ApiPredicate): (r: map<Identifier, Structure>)
    ensures r.Keys == structs.Keys
    ensures forall k :: k in r ==> r[k].name == structs[k].name
    ensures forall k :: k in r ==> r[k].members == Keep(structs[k].members, isVulkanApi.member)
  {
    FilterChildren(structs, (s: Structure) => s.members, (s: Structure, ms: seq<Member>) => s.(members := ms), isVulkanApi.member)
  }

  // ---------------------------------------------------------------------------------------------
  // Required identifiers

  /** Every require list of every version in `versions`. */
  function VersionRequireLists(versions: map<Identifier, Version>): set<RequireList>
  {
    set k, rl | k in versions && rl in versions[k].requireList :: rl
  }

  /** Every require list of every extension in `extensions`. */
  function ExtensionRequireLists(extensions: map<Identifier, Extension>): set<RequireList>
  {
    set k, rl | k in extensions && rl in extensions[k].requireList :: rl
  }

  function CommandsOf(rls: set<RequireList>): set<Identifier>
  {
    set rl, c | rl in rls && c in rl.commands :: c
  }

  function TypesOf(rls: set<RequireList>): set<Identifier>
  {
    set rl, t | rl in rls && t in rl.types :: t
  }

  function ValuesOf(rls: set<RequireList>): set<Identifier>
  {
    set rl, v | rl in rls && v in rl.values :: v.name
  }

  /**
   Whether an extension's require list contributes its commands: its `depends` is empty, or is,
   as a whole string, one of the required extension names. A compound dependency expression is
   not evaluated.
   */
  predicate CommandsAdmitted(rl: RequireList, required: set<string>)
  {
    |rl.depends| == 0 || rl.depends in required
  }

  /** The identifiers the given (already filtered) versions require. */
  function CoreIdentifiers(filteredVersions: map<Identifier, Version>): set<Identifier>
  {
    var rls := VersionRequireLists(filteredVersions);
    CommandsOf(rls) + TypesOf(rls) + ValuesOf(rls)
  }

  /** The identifiers the given (already filtered) extensions require, commands gated on `depends`. */
  function ExtensionIdentifiers(filteredExtensions: map<Identifier, Extension>, required: set<string>): set<Identifier>
  {
    var rls := ExtensionRequireLists(filteredExtensions);
    var admitted := set rl | rl in rls && CommandsAdmitted(rl, required);
    CommandsOf(admitted) + TypesOf(rls) + ValuesOf(rls)
  }

  /** The identifiers the kept versions and the kept extensions require together. */
  function Identifiers(registry: Registry, required: set<string>, isVulkanApi: ApiPredicate): set<Identifier>
  {
    CoreIdentifiers(FilterVersions(registry.versions, isVulkanApi))
      + ExtensionIdentifiers(FilterExtension(registry.extensions, required), required)
  }

  // ---------------------------------------------------------------------------------------------
  // The pass

  /** `m2` holds every entry of `m1` with the same value. */
  ghost predicate IsSubmap<V>(m1: map<Identifier, V>, m2: map<Identifier, V>)
  {
    forall k :: k in m1 ==> k in m2 && m1[k] == m2[k]
  }

  /** `r` is `m` restricted to the keys in `identifiers`, its values unchanged. */
  ghost predicate KeyFiltered<V>(r: map<Identifier, V>, m: map<Identifier, V>, identifiers: set<Identifier>)
  {
    r.Keys == m.Keys * identifiers && IsSubmap(r, m)
  }

  /**
   Restricts every entity map of `registry` to `identifiers` and filters the child lists of
   bitmasks, commands, enums and structures; extensions and versions are left to the caller.
   */
  function Prune(registry: Registry, identifiers: set<Identifier>, isVulkanApi: ApiPredicate): Registry
  {
    registry.(
      aliases := FilterEntities(registry.aliases, identifiers),
      basetypes := FilterEntities(registry.basetypes, identifiers),
      bitmasks := FilterBitmasks(FilterEntities(registry.bitmasks, identifiers), isVulkanApi),
      constants := FilterEntities(registry.constants, identifiers),
      commands := FilterCommands(FilterEntities(registry.commands, identifiers), isVulkanApi),
      commandAliases := FilterIdentifiers(registry.commandAliases, identifiers),
      enums := FilterEnums(FilterEntities(registry.enums, identifiers), isVulkanApi),
      functions := FilterEntities(registry.functions, identifiers),
      handles := FilterEntities(registry.handles, identifiers),
      structs := FilterStructures(FilterEntities(registry.structs, identifiers), isVulkanApi),
      unions := FilterEntities(registry.unions, identifiers))
  }

  /**
   What pruning keeps: aliases, base types, constants, command aliases, function pointers, handles
   and unions are restricted to `identifiers`; bitmasks, commands, enums and structures are
   restricted and their child lists filtered in order, their other fields kept; the extensions and
   versions are untouched.
   */
  lemma PruneSpec(registry: Registry, identifiers: set<Identifier>, isVulkanApi: ApiPredicate)
    ensures var r := Prune(registry, identifiers, isVulkanApi);
      && KeyFiltered(r.aliases, registry.aliases, identifiers)
      && KeyFiltered(r.basetypes, registry.basetypes, identifiers)
      && KeyFiltered(r.constants, registry.constants, identifiers)
      && KeyFiltered(r.commandAliases, registry.commandAliases, identifiers)
      && KeyFiltered(r.functions, registry.functions, identifiers)
      && KeyFiltered(r.handles, registry.handles, identifiers)
      && KeyFiltered(r.unions, registry.unions, identifiers)
      && r.bitmasks.Keys == registry.bitmasks.Keys * identifiers
      && r.commands.Keys == registry.commands.Keys * identifiers
      && r.enums.Keys == registry.enums.Keys * identifiers
      && r.structs.Keys == registry.structs.Keys * identifiers
      && (forall k :: k in r.bitmasks ==>
            r.bitmasks[k] == registry.bitmasks[k].(bitflags := Keep(registry.bitmasks[k].bitflags, isVulkanApi.bitflag)))
      && (forall k :: k in r.commands ==>
            r.commands[k] == registry.commands[k].(params := Keep(registry.commands[k].params, isVulkanApi.param)))
      && (forall k :: k in r.enums ==>
            r.enums[k] == registry.enums[k].(variants := Keep(registry.enums[k].variants, isVulkanApi.variant)))
      && (forall k :: k in r.structs ==>
            r.structs[k] == registry.structs[k].(members := Keep(registry.structs[k].members, isVulkanApi.member)))
      && r.extensions == registry.extensions
      && r.versions == registry.versions
  {
  }

  /**
   The filtering pass with the required extension set as a parameter: the registry pruned to the
   identifiers its Vulkan API versions and required extensions need, with those versions and
   extensions as its own.
   */
  function FilterRegistryWith(registry: Registry, required: set<string>, isVulkanApi: ApiPredicate): Registry
  {
    Prune(registry, Identifiers(registry, required, isVulkanApi), isVulkanApi).(
      extensions := FilterExtension(registry.extensions, required),
      versions := FilterVersions(registry.versions, isVulkanApi))
  }

  /**
   What the pass keeps: every category map is restricted to the required identifiers; the child
   lists of bitmasks, commands, enums and structures are filtered in order and their other fields
   kept; aliases, base types, constants, command aliases, function pointers, handles and unions
   (members included) are only restricted; the extensions and versions are the filtered ones.
   */
  lemma FilterRegistryWithSpec(registry: Registry, required: set<string>, isVulkanApi: ApiPredicate)
    ensures var r, ids := FilterRegistryWith(registry, required, isVulkanApi), Identifiers(registry, required, isVulkanApi);
      && KeyFiltered(r.aliases, registry.aliases, ids)
      && KeyFiltered(r.basetypes, registry.basetypes, ids)
      && KeyFiltered(r.constants, registry.constants, ids)
      && KeyFiltered(r.commandAliases, registry.commandAliases, ids)
      && KeyFiltered(r.functions, registry.functions, ids)
      && KeyFiltered(r.handles, registry.handles, ids)
      && KeyFiltered(r.unions, registry.unions, ids)
      && r.bitmasks.Keys == registry.bitmasks.Keys * ids
      && r.commands.Keys == registry.commands.Keys * ids
      && r.enums.Keys == registry.enums.Keys * ids
      && r.structs.Keys == registry.structs.Keys * ids
      && (forall k :: k in r.bitmasks ==>
            r.bitmasks[k] == registry.bitmasks[k].(bitflags := Keep(registry.bitmasks[k].bitflags, isVulkanApi.bitflag)))
      && (forall k :: k in r.commands ==>
            r.commands[k] == registry.commands[k].(params := Keep(registry.commands[k].params, isVulkanApi.param)))
      && (forall k :: k in r.enums ==>
            r.enums[k] == registry.enums[k].(variants := Keep(registry.enums[k].variants, isVulkanApi.variant)))
      && (forall k :: k in r.structs ==>
            r.structs[k] == registry.structs[k].(members := Keep(registry.structs[k].members, isVulkanApi.member)))
      && r.extensions == FilterExtension(registry.extensions, required)
      && r.versions == FilterVersions(registry.versions, isVulkanApi)
  {
    PruneSpec(registry, Identifiers(registry, required, isVulkanApi), isVulkanApi);
  }

  /** The filtering pass as `vulkanalia` runs it, with its fixed required extension set. */
  function FilterRegistry(registry: Registry, isVulkanApi: ApiPredicate): (r: Registry)
    ensures forall k :: k in r.extensions <==> k in registry.extensions && registry.extensions[k].name in RequiredExtensions
    ensures forall k :: k in r.extensions ==> r.extensions[k] == registry.extensions[k]
  {
    FilterRegistryWith(registry, RequiredExtensions, isVulkanApi)
  }
}
