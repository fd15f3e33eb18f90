/** Stand-ins for the value types that the level code takes from the core and
    NBT libraries it links against. They are compared by value only; their
    internals are not part of this model. */
module Core {
  import opened Wrappers

  /** An NBT named tag. The tag tree is opaque: only equality matters here. */
  datatype NamedTag = NamedTag(name: string, payload: seq<int>)

  datatype Block = Block(platform: string, version: int, namespace: string, baseName: string)

  /** A base block followed by its extra (waterlogging) blocks. */
  datatype BlockStack = BlockStack(blocks: seq<Block>)

  datatype Biome = Biome(platform: string, version: int, namespace: string, baseName: string)

  /** A version range of one platform; a VersionNumber is a sequence of integers. */
  datatype VersionRange = VersionRange(platform: string, minVersion: seq<int>, maxVersion: seq<int>)

  datatype SectionShape = SectionShape(x: nat, y: nat, z: nat)

  /** No block stack appears twice. */
  predicate Distinct(s: seq<BlockStack>)
  {
    forall i, j :: 0 <= i < j < |s| ==> s[i] != s[j]
  }

  /** The block palette of a block component: an append-only, deduplicating
      table from block stacks to dense indices. */
  class BlockPalette {
    const versionRange: VersionRange
    var stacks: seq<BlockStack>
    var lookup: map<BlockStack, nat>

    /** Indices are dense, distinct and never renumbered. */
    ghost predicate Valid()
      reads this
    {
      && (forall b :: b in lookup <==> b in stacks)
      && (forall b :: b in lookup ==> lookup[b] < |stacks| && stacks[lookup[b]] == b)
      && Distinct(stacks)
    }

    constructor (range: VersionRange, first: BlockStack)
      ensures Valid()
      ensures versionRange == range && stacks == [first]
    {
      versionRange := range;
      stacks := [first];
      lookup := map[first := 0];
    }

    /** A palette rebuilt from its stacks, as deserialising a chunk does. */
    constructor Copy(range: VersionRange, from: seq<BlockStack>)
      requires Distinct(from)
      ensures Valid()
      ensures versionRange == range && stacks == from
    {
      versionRange := range;
      stacks := from;
      lookup := map i | 0 <= i < |from| :: from[i] := i;
    }

    function Len(): (n: nat)
      reads this
      ensures n == |stacks|
    {
      |stacks|
    }

    /** index_to_block_stack: fails for an index that has not been issued. */
    function IndexToBlockStack(i: int): (r: Result<BlockStack>)
      reads this
      ensures r.Ok? <==> 0 <= i < |stacks|
      ensures r.Ok? ==> r.value == stacks[i]
    {
      if 0 <= i < |stacks| then Ok(stacks[i]) else Err(KeyError)
    }

    /** block_stack_to_index: the index of b, appending b first if it is new.
        Indices already issued are unchanged. */
    method BlockStackToIndex(b: BlockStack) returns (i: nat)
      requires Valid()
      modifies this
      ensures Valid()
      ensures i < |stacks| && stacks[i] == b
      ensures b in old(stacks) ==> stacks == old(stacks)
      ensures b !in old(stacks) ==> stacks == old(stacks) + [b] && i == |old(stacks)|
    {
      if b in lookup {
        i := lookup[b];
      } else {
        i := |stacks|;
        stacks := stacks + [b];
        lookup := lookup[b := i];
      }
    }
  }
}
