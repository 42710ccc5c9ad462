/**
 Small registries run through the filtering pass: a two-extension registry where one extension
 depends on the other, the `depends` gate on the fixed required set, and an alias that outlives
 its target.
 */
module FilterScenarios {
  import opened RegistryModel
  import opened Filter
  import opened FilterProperties

  /** Every entity is a Vulkan API entity. */
  function AllVulkan(): ApiPredicate
  {
    ApiPredicate(v => true, b => true, p => true, x => true, m => true)
  }

  function Unconditional(commands: seq<Identifier>): RequireList
  {
    RequireList("", commands, [], [])
  }

  /** A registry holding only the given extensions and versions. */
  function WithRequirements(extensions: map<Identifier, Extension>, versions: map<Identifier, Version>): Registry
  {
    Registry(map[], map[], map[], map[], map[], map[], map[], extensions, map[], map[], map[], map[], versions)
  }

  /**
   Version `V1` requires commands A and B; extension `EXT_x` requires C unconditionally;
   extension `EXT_y` requires D from a require list that depends on `EXT_x`.
   */
  function TwoExtensions(): Registry
  {
    WithRequirements(
      map[
        "EXT_x" := Extension("EXT_x", [Unconditional(["C"])]),
        "EXT_y" := Extension("EXT_y", [RequireList("EXT_x", ["D"], [], [])])],
      map["V1" := Version("V1", [Unconditional(["A", "B"])])])
  }

  lemma UnconditionalRequires(commands: seq<Identifier>)
    ensures RequiredBy([Unconditional(commands)]) == set c | c in commands
    ensures forall required :: ContributedBy([Unconditional(commands)], required) == set c | c in commands
  {
    assert [Unconditional(commands)][..0] == [];
  }

  /** `V1` is the only version and requires exactly A and B. */
  lemma TwoExtensionsCore(x: Identifier)
    ensures x in CoreIdentifiers(FilterVersions(TwoExtensions().versions, AllVulkan())) <==> x in {"A", "B"}
  {
    var versions := TwoExtensions().versions;
    UnconditionalRequires(["A", "B"]);
    CoreIdentifiersSpec(versions, AllVulkan(), x);
    if x in {"A", "B"} {
      assert x in RequiredBy(versions["V1"].requireList);
    }
  }

  /** Selecting `EXT_x` alone: D is left out because `EXT_y` is not selected. */
  lemma OnlyFirstExtension()
    ensures Identifiers(TwoExtensions(), {"EXT_x"}, AllVulkan()) == {"A", "B", "C"}
  {
    var extensions, required := TwoExtensions().extensions, {"EXT_x"};
    UnconditionalRequires(["C"]);
    forall x ensures x in Identifiers(TwoExtensions(), required, AllVulkan()) <==> x in {"A", "B", "C"} {
      TwoExtensionsCore(x);
      ExtensionIdentifiersSpec(extensions, required, x);
      if x == "C" {
        assert x in ContributedBy(extensions["EXT_x"].requireList, required);
      }
    }
  }

  /** Selecting both extensions: D is in, since its require list depends on a selected name. */
  lemma BothExtensions()
    ensures Identifiers(TwoExtensions(), {"EXT_x", "EXT_y"}, AllVulkan()) == {"A", "B", "C", "D"}
  {
    var extensions, required := TwoExtensions().extensions, {"EXT_x", "EXT_y"};
    var rlY := RequireList("EXT_x", ["D"], [], []);
    UnconditionalRequires(["C"]);
    assert [rlY][..0] == [];
    assert CommandsAdmitted(rlY, required);
    forall x ensures x in Identifiers(TwoExtensions(), required, AllVulkan()) <==> x in {"A", "B", "C", "D"} {
      TwoExtensionsCore(x);
      ExtensionIdentifiersSpec(extensions, required, x);
      if x == "C" {
        assert x in ContributedBy(extensions["EXT_x"].requireList, required);
      }
      if x == "D" {
        assert x in ContributedBy(extensions["EXT_y"].requireList, required);
      }
    }
  }

  /**
   `VK_KHR_swapchain` with an unconditional require list, one that depends on `VK_VERSION_1_1`
   (not an extension name of the fixed set) and one whose dependency is a compound expression
   over two names of the fixed set.
   */
  function Swapchain(): Registry
  {
    WithRequirements(
      map["VK_KHR_swapchain" := Extension("VK_KHR_swapchain", [
        Unconditional(["vkCreateSwapchainKHR"]),
        RequireList("VK_VERSION_1_1", ["vkGetDeviceGroupPresentCapabilitiesKHR"], ["VkDeviceGroupPresentCapabilitiesKHR"], []),
        RequireList("VK_KHR_surface+VK_EXT_debug_utils", ["vkCompoundKHR"], [], [])])],
      map[])
  }

  /** What the three require lists of `VK_KHR_swapchain` contribute under the fixed set. */
  lemma SwapchainContributes(x: Identifier)
    ensures x in ContributedBy(Swapchain().extensions["VK_KHR_swapchain"].requireList, RequiredExtensions) <==>
      x in {"vkCreateSwapchainKHR", "VkDeviceGroupPresentCapabilitiesKHR"}
  {
    var rls := Swapchain().extensions["VK_KHR_swapchain"].requireList;
    assert "VK_VERSION_1_1" !in RequiredExtensions;
    assert "VK_KHR_surface+VK_EXT_debug_utils" !in RequiredExtensions;
    assert ContributedByList(rls[0], RequiredExtensions) == {"vkCreateSwapchainKHR"};
    assert ContributedByList(rls[1], RequiredExtensions) == {"VkDeviceGroupPresentCapabilitiesKHR"};
    assert ContributedByList(rls[2], RequiredExtensions) == {};
    ContributedByMembership(rls, RequiredExtensions, x);
  }

  lemma SwapchainExtensionIdentifiers(x: Identifier)
    ensures x in ExtensionIdentifiers(FilterExtension(Swapchain().extensions, RequiredExtensions), RequiredExtensions) <==>
      x in {"vkCreateSwapchainKHR", "VkDeviceGroupPresentCapabilitiesKHR"}
  {
    var extensions := Swapchain().extensions;
    ExtensionIdentifiersSpec(extensions, RequiredExtensions, x);
    SwapchainContributes(x);
    if x in {"vkCreateSwapchainKHR", "VkDeviceGroupPresentCapabilitiesKHR"} {
      assert "VK_KHR_swapchain" in RequiredExtensions;
      assert x in ContributedBy(extensions["VK_KHR_swapchain"].requireList, RequiredExtensions);
    }
  }

  /**
   Under the fixed set, `VK_KHR_swapchain` contributes its unconditional command and the type of
   the `VK_VERSION_1_1` list, but neither gated command.
   */
  lemma SwapchainGate()
    ensures Identifiers(Swapchain(), RequiredExtensions, AllVulkan())
         == {"vkCreateSwapchainKHR", "VkDeviceGroupPresentCapabilitiesKHR"}
  {
    forall x ensures x in Identifiers(Swapchain(), RequiredExtensions, AllVulkan()) <==>
      x in {"vkCreateSwapchainKHR", "VkDeviceGroupPresentCapabilitiesKHR"}
    {
      CoreIdentifiersSpec(map[], AllVulkan(), x);
      SwapchainExtensionIdentifiers(x);
    }
  }

  /**
   The pass does not check alias targets: an alias whose own identifier is required is kept
   even when the structure it names is pruned.
   */
  function DanglingAlias(): Registry
  {
    Registry(
      map["VkFooKHR" := Alias("VkFooKHR", "VkFoo")], map[], map[], map[], map[], map[], map[], map[],
      map[], map[], map["VkFoo" := Structure("VkFoo", [])], map[],
      map["V1" := Version("V1", [RequireList("", [], ["VkFooKHR"], [])])])
  }

  lemma AliasTargetNotChecked()
    ensures var r := FilterRegistryWith(DanglingAlias(), {}, AllVulkan());
      && "VkFooKHR" in r.aliases && r.aliases["VkFooKHR"].target == "VkFoo"
      && "VkFoo" !in r.structs
  {
    var reg := DanglingAlias();
    var rl := RequireList("", [], ["VkFooKHR"], []);
    assert [rl][..0] == [];
    assert RequiredBy([rl]) == {"VkFooKHR"};
    CoreIdentifiersSpec(reg.versions, AllVulkan(), "VkFooKHR");
    CoreIdentifiersSpec(reg.versions, AllVulkan(), "VkFoo");
    ExtensionIdentifiersSpec(reg.extensions, {}, "VkFoo");
    assert AllVulkan().version(reg.versions["V1"]);
    FilterRegistryWithSpec(reg, {}, AllVulkan());
  }
}
