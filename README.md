# vulkanalia registry filter, modelled in Dafny

`vulkanalia`'s binding generator reads the Khronos Vulkan registry into an in-memory `Registry`
and, before any Rust is emitted, runs one filtering pass over it (`Registry.filterRegistry` in
`Filter.kt`). The pass:

1. keeps the versions that are Vulkan API versions (not Vulkan SC);
2. collects every command, type and value those versions require;
3. keeps the extensions whose name is one of nine fixed names and collects what they require, where
   the *commands* of a require list count only when its `depends` attribute is empty or is, as a
   whole string, one of those nine names (types and values are never gated);
4. restricts every entity map (aliases, base types, bitmasks, constants, commands, command aliases,
   enums, function pointers, handles, structures, unions) to the collected identifiers, and filters
   the child lists of bitmasks (bit flags), commands (parameters), enums (variants) and structures
   (members) down to their Vulkan API children, in order.

The project models that pass as pure functions over Dafny maps, sets and sequences and proves what
it guarantees.

- `registry.dfy` (`RegistryModel`): the registry records, holding only the fields the pass touches
  plus each entity's name, and an alias's `target`, which the pass never reads and which is there
  only so that `FilterScenarios.AliasTargetNotChecked` can state what the pass leaves dangling.
  `Identifier` is a string, and `isVulkanApi` is an `ApiPredicate`, one uninterpreted predicate
  per kind of entity the pass asks it of.
- `lists.dfy` (`Lists`): Kotlin's `List.filter` as `Keep`, with order preservation and idempotence.
- `filter.dfy` (`Filter`): the pass itself. Each Kotlin helper (`filterVersions`,
  `filterExtension`, `filterEntities`, `filterIdentifiers`, `filterChildren` and its four uses) is
  one function. `Identifiers` is the identifier set of lines 5-49. `FilterRegistryWith` takes the
  required extension set as a parameter, and `FilterRegistry` is the pass with the fixed set.
- `filter_properties.dfy` (`FilterProperties`): an independent, list-by-list reading of what a
  version or an extension requires (`RequiredBy`, `ContributedBy`), and proofs connecting the pass
  to it:
  - exact characterisation of the identifier set;
  - the `depends` gate;
  - irrelevance of unselected extensions and rejected versions;
  - monotonicity in the required set;
  - idempotence of the whole pass.
- `filter_scenarios.dfy` (`FilterScenarios`): small concrete registries computed through the
  pass: two extensions where one depends on the other, `VK_KHR_swapchain` under the fixed set, and
  an alias that outlives its target.

What the pass does not do, as the code stands:
- A registry `depends` attribute can be a compound expression such as
  `VK_KHR_surface+VK_EXT_debug_utils`, but line 36 compares the whole string with the required
  names, so a compound dependency never admits its commands (`FilterScenarios.SwapchainGate`).
- The pass never checks alias targets: an alias whose own name is required is kept even when the
  entity it names is pruned (`FilterScenarios.AliasTargetNotChecked`).
- There is no check for dependency cycles between extensions.
- Every version satisfying `isVulkanApi` is kept; versions are not selected by number.

## Model

| member | source | states |
|---|---|---|
| Lists.Keep | generator/src/main/kotlin/com/kylemayes/generator/registry/Filter.kt:97 | the filtered child list is no longer than the original; each kept child is one of the originals and satisfies the predicate; an original child is kept exactly when it satisfies the predicate |
| Lists.KeptIndices | generator/src/main/kotlin/com/kylemayes/generator/registry/Filter.kt:97 | the positions of the satisfying children are in range, strictly increasing, and include every satisfying position |
| Lists.KeepByIndices | generator/src/main/kotlin/com/kylemayes/generator/registry/Filter.kt:97 | order preservation: the filtered list is the original read at exactly the satisfying positions, in increasing order |
| Lists.KeepAllSatisfy | generator/src/main/kotlin/com/kylemayes/generator/registry/Filter.kt:97 | a list whose children all satisfy the predicate is returned unchanged |
| Lists.KeepIdempotent | generator/src/main/kotlin/com/kylemayes/generator/registry/Filter.kt:97 | filtering a filtered child list again changes nothing |
| Filter.FilterVersions | generator/src/main/kotlin/com/kylemayes/generator/registry/Filter.kt:68-69 | a version is kept exactly when `isVulkanApi` holds for it, and kept versions are unchanged |
| Filter.FilterExtension | generator/src/main/kotlin/com/kylemayes/generator/registry/Filter.kt:71-72 | an extension is kept exactly when its own name (not its key) is in the given set, and kept extensions are unchanged |
| Filter.FilterEntities | generator/src/main/kotlin/com/kylemayes/generator/registry/Filter.kt:74-75 | the kept keys are exactly the original keys that are in the identifier set, and every kept value is the original one |
| Filter.FilterIdentifiers | generator/src/main/kotlin/com/kylemayes/generator/registry/Filter.kt:77-78 | the same restriction for the command-alias map from identifiers to identifiers |
| Filter.FilterChildren | generator/src/main/kotlin/com/kylemayes/generator/registry/Filter.kt:92-98 | every key is kept, even one whose children all drop out; each entity is rebuilt by `put` from itself and its filtered child list (the per-entity step is `Filter.WithKeptChildren`) |
| Filter.FilterBitmasks | generator/src/main/kotlin/com/kylemayes/generator/registry/Filter.kt:80-81 | same keys, same names, and each bitmask's flags are its Vulkan API flags in order |
| Filter.FilterCommands | generator/src/main/kotlin/com/kylemayes/generator/registry/Filter.kt:83-84 | same keys, same names, and each command's parameters are its Vulkan API parameters in order |
| Filter.FilterEnums | generator/src/main/kotlin/com/kylemayes/generator/registry/Filter.kt:86-87 | same keys, same names, and each enum's variants are its Vulkan API variants in order |
| Filter.FilterStructures | generator/src/main/kotlin/com/kylemayes/generator/registry/Filter.kt:89-90 | same keys, same names, and each structure's members are its Vulkan API members in order |
| Filter.FilterRegistryWithSpec | generator/src/main/kotlin/com/kylemayes/generator/registry/Filter.kt:4-66 | for `Filter.FilterRegistryWith`, the pass with the required set as a parameter: aliases, base types, constants, command aliases, function pointers, handles and unions are only restricted to the required identifiers; bitmasks, commands, enums and structures are restricted and their child lists filtered in order, other fields kept; extensions and versions are exactly the filtered maps |
| Filter.PruneSpec | generator/src/main/kotlin/com/kylemayes/generator/registry/Filter.kt:51-63 | for `Filter.Prune`, the rebuilding of the entity maps: aliases, base types, constants, command aliases, function pointers, handles and unions are restricted to the identifiers with values unchanged; bitmasks, commands, enums and structures are restricted and their child lists filtered in order, other fields kept; extensions and versions are untouched |
| FilterProperties.IdentifiersSpec | generator/src/main/kotlin/com/kylemayes/generator/registry/Filter.kt:5-49 | for `Filter.Identifiers`: an identifier is required exactly when some Vulkan API version's require lists name it, or some extension named in the required set contributes it |
| Filter.FilterRegistry | generator/src/main/kotlin/com/kylemayes/generator/registry/Filter.kt:20-33 | with the fixed set of nine names, an extension survives exactly when its name is one of them, and each surviving extension is unchanged, key by key |
| FilterProperties.FilterEntitiesIsRestriction | generator/src/main/kotlin/com/kylemayes/generator/registry/Filter.kt:74-75 | a map is the key filter's result if and only if it has exactly the original keys within the identifier set and the original values |
| FilterProperties.FilterEntitiesIdempotent | generator/src/main/kotlin/com/kylemayes/generator/registry/Filter.kt:74-75 | filtering a filtered map with the same identifiers returns it unchanged |
| FilterProperties.FilterEntitiesMonotone | generator/src/main/kotlin/com/kylemayes/generator/registry/Filter.kt:74-75 | with more identifiers the key filter keeps a superset of entries with the same values |
| FilterProperties.RequiredByMembership | generator/src/main/kotlin/com/kylemayes/generator/registry/Filter.kt:6-17 | an identifier is required by a version's require lists exactly when one of those lists names it as a command, a type or a value |
| FilterProperties.ContributedByMembership | generator/src/main/kotlin/com/kylemayes/generator/registry/Filter.kt:34-46 | an identifier is contributed by an extension's require lists exactly when one list contributes it, with that list's commands counted only if admitted |
| FilterProperties.CoreIdentifiersSpec | generator/src/main/kotlin/com/kylemayes/generator/registry/Filter.kt:5-18 | an identifier is a core identifier if and only if some Vulkan API version's require lists name it; no `depends` gate applies, and other versions contribute nothing; this also characterises the flatMap helpers `Filter.CoreIdentifiers`, `Filter.VersionRequireLists`, `Filter.CommandsOf`, `Filter.TypesOf` and `Filter.ValuesOf` |
| FilterProperties.ExtensionIdentifiersSpec | generator/src/main/kotlin/com/kylemayes/generator/registry/Filter.kt:33-47 | an identifier is an extension identifier if and only if some extension named in the required set contributes it: any type or value of its lists, or a command of an admitted list; this also characterises `Filter.ExtensionIdentifiers`, `Filter.ExtensionRequireLists` and the gate `Filter.CommandsAdmitted` |
| FilterProperties.SelectedRequireListContributes | generator/src/main/kotlin/com/kylemayes/generator/registry/Filter.kt:34-46 | for a require list of a selected extension, all its types and value names are required, and its commands are required when `depends` is empty or a required name |
| FilterProperties.GatedCommandExcluded | generator/src/main/kotlin/com/kylemayes/generator/registry/Filter.kt:34-38 | a command that only gated-out require lists name, and that nothing names as a type or value, is not an extension identifier |
| FilterProperties.UnselectedExtensionIgnored | generator/src/main/kotlin/com/kylemayes/generator/registry/Filter.kt:33-49 | adding or replacing an extension whose name is not in the required set leaves the whole filtered registry as if the extension were absent, whatever it requires |
| FilterProperties.RejectedVersionIgnored | generator/src/main/kotlin/com/kylemayes/generator/registry/Filter.kt:5-18 | adding or replacing a version that is not a Vulkan API version leaves the whole filtered registry as if the version were absent |
| FilterProperties.IdentifiersMonotone | generator/src/main/kotlin/com/kylemayes/generator/registry/Filter.kt:33-49 | a larger required extension set requires at least the same identifiers |
| FilterProperties.FilterRegistryMonotone | generator/src/main/kotlin/com/kylemayes/generator/registry/Filter.kt:49-65 | with a larger required set every entity map and the extension map of the result only gain entries, with the same values, and the versions are the same |
| FilterProperties.BitmasksIdempotent | generator/src/main/kotlin/com/kylemayes/generator/registry/Filter.kt:80-81 | restricting and flag-filtering the bitmasks a second time changes nothing |
| FilterProperties.CommandsIdempotent | generator/src/main/kotlin/com/kylemayes/generator/registry/Filter.kt:83-84 | restricting and parameter-filtering the commands a second time changes nothing |
| FilterProperties.EnumsIdempotent | generator/src/main/kotlin/com/kylemayes/generator/registry/Filter.kt:86-87 | restricting and variant-filtering the enums a second time changes nothing |
| FilterProperties.StructuresIdempotent | generator/src/main/kotlin/com/kylemayes/generator/registry/Filter.kt:89-90 | restricting and member-filtering the structures a second time changes nothing |
| FilterProperties.IdentifiersOfFiltered | generator/src/main/kotlin/com/kylemayes/generator/registry/Filter.kt:4-49 | the filtered registry requires exactly the identifiers the original did |
| FilterProperties.PruneIdempotent | generator/src/main/kotlin/com/kylemayes/generator/registry/Filter.kt:51-63 | pruning the entity maps a second time to the same identifiers changes nothing |
| FilterProperties.FilteredVersionsAndExtensionsStable | generator/src/main/kotlin/com/kylemayes/generator/registry/Filter.kt:59-64 | the result's extensions and versions pass their own filters unchanged |
| FilterProperties.PruneIgnoresExtensionsAndVersions | generator/src/main/kotlin/com/kylemayes/generator/registry/Filter.kt:51-65 | pruning the entity maps neither reads nor changes the extensions and versions |
| FilterProperties.FilterRegistryIdempotent | generator/src/main/kotlin/com/kylemayes/generator/registry/Filter.kt:4-66 | running the filtering pass on its own result, with the same required set and predicate, returns that result unchanged |
| FilterScenarios.TwoExtensionsCore | generator/src/main/kotlin/com/kylemayes/generator/registry/Filter.kt:5-18 | in the two-extension registry the core identifiers are exactly A and B |
| FilterScenarios.OnlyFirstExtension | generator/src/main/kotlin/com/kylemayes/generator/registry/Filter.kt:33-49 | selecting only `EXT_x` requires exactly A, B and C; the other extension's command D is left out |
| FilterScenarios.BothExtensions | generator/src/main/kotlin/com/kylemayes/generator/registry/Filter.kt:34-38 | selecting both extensions also admits D, whose require list depends on the selected `EXT_x` |
| FilterScenarios.SwapchainContributes | generator/src/main/kotlin/com/kylemayes/generator/registry/Filter.kt:36 | under the fixed set, the swapchain require lists contribute the unconditional command and the type of the `VK_VERSION_1_1` list and nothing else |
| FilterScenarios.SwapchainExtensionIdentifiers | generator/src/main/kotlin/com/kylemayes/generator/registry/Filter.kt:33-47 | the extension identifiers of the swapchain registry under the fixed set are exactly those two |
| FilterScenarios.SwapchainGate | generator/src/main/kotlin/com/kylemayes/generator/registry/Filter.kt:20-49 | the whole identifier set is exactly those two: neither the command gated on a version name nor the one gated on a compound expression over two required names is required |
| FilterScenarios.AliasTargetNotChecked | generator/src/main/kotlin/com/kylemayes/generator/registry/Filter.kt:51-62 | an alias whose own name is required is kept, pointing at a structure that the same pass prunes |

## Left out

- Parsing the registry XML, the Rust emitters and the command-line driver are not part of this
  model. Neither is the registry type library, whose records here hold only the fields the pass
  reads or rebuilds, plus each entity's name and an alias's target.
- Entry order: Kotlin's `Map.filter` and `mapValues` (lines 69, 72, 75, 78, 95) return
  insertion-ordered maps, so the filtered registry keeps the registry's entry order. Dafny maps are
  unordered, so the model says nothing about the order of entries (the order of children within a
  list is modelled, by `Lists.KeepByIndices`).
- `isVulkanApi` is not defined by the filtering pass. It is modelled as an uninterpreted predicate
  per entity kind, so nothing depends on how the registry marks Vulkan SC entities.
- `intern()` on type names is the identity, because identifiers are compared as strings.
- The `toMutableList()` conversions on lines 81 and 87 change only the Kotlin collection type,
  which has no counterpart on Dafny values.
- Behaviour the code does not have is not modelled: evaluating compound `depends` expressions,
  gating types and values on `depends`, rejecting aliases whose target is pruned, and detecting
  extension dependency cycles.
- Filter.FilterRegistry: its own contract covers only the extension map. The rest of the result is
  stated by `Filter.FilterRegistryWithSpec`, whose required set this function fixes to the nine
  names.
