/**
 The parts of the in-memory Vulkan registry model that the filtering pass reads or rebuilds.

 Every entity is keyed by its `Identifier`, an interned name; names compare as strings, so
 interning a type name (`n.intern()`) is the identity here. Each record holds only the fields the
 filtering pass touches, plus the entity's own name so that "the other fields are unchanged" has
 something to say.
 */
module RegistryModel {

  type Identifier = string

  /** A value (constant or enum variant) named by a require list; only its name is used. */
  datatype RequireValue = RequireValue(name: Identifier)

  /**
   One `<require>` block of a version or an extension. `depends` is the block's raw dependency
   attribute; the empty string means the block is unconditional.
   */
  datatype RequireList = RequireList(
    depends: string,
    commands: seq<Identifier>,
    types: seq<Identifier>,
    values: seq<RequireValue>)

  datatype Version = Version(name: Identifier, requireList: seq<RequireList>)

  datatype Extension = Extension(name: Identifier, requireList: seq<RequireList>)

  datatype Bitflag = Bitflag(name: Identifier)
  datatype Bitmask = Bitmask(name: Identifier, bitflags: seq<Bitflag>)

  datatype Param = Param(name: Identifier)
  datatype Command = Command(name: Identifier, params: seq<Param>)

  datatype Variant = Variant(name: Identifier)
  datatype Enum = Enum(name: Identifier, variants: seq<Variant>)

  datatype Member = Member(name: Identifier)
  datatype Structure = Structure(name: Identifier, members: seq<Member>)
  datatype Union = Union(name: Identifier, members: seq<Member>)

  datatype Alias = Alias(name: Identifier, target: Identifier)
  datatype Basetype = Basetype(name: Identifier)
  datatype Constant = Constant(name: Identifier)
  datatype Function = Function(name: Identifier)
  datatype Handle = Handle(name: Identifier)

  /** The registry: one map per entity category, keyed by identifier. */
  datatype Registry = Registry(
    aliases: map<Identifier, Alias>,
    basetypes: map<Identifier, Basetype>,
    bitmasks: map<Identifier, Bitmask>,
    constants: map<Identifier, Constant>,
    commands: map<Identifier, Command>,
    commandAliases: map<Identifier, Identifier>,
    enums: map<Identifier, Enum>,
    extensions: map<Identifier, Extension>,
    functions: map<Identifier, Function>,
    handles: map<Identifier, Handle>,
    structs: map<Identifier, Structure>,
    unions: map<Identifier, Union>,
    versions: map<Identifier, Version>)

  /**
   Whether an entity belongs to the Vulkan API (as opposed to, say, Vulkan SC). The registry
   decides this per entity; the filtering pass only ever asks it of versions, bitflags, command
   parameters, enum variants and structure members, so it is given as one uninterpreted
   predicate per kind of entity.
   */
  datatype ApiPredicate = ApiPredicate(
    version: Version -> bool,
    bitflag: Bitflag -> bool,
    param: Param -> bool,
    variant: Variant -> bool,
    member: Member -> bool)
}
