/** The map data the renderer works on: nodes, ways and relations as loaded
    from the dataset, the feature category derived from tags, and the ring
    record produced by the ring reconstructor. Identifiers are unsigned 64-bit
    values in the program; nothing here does arithmetic on them, so they are
    modelled as `nat`. */
module OsmData {
  import opened Seqs

  /** Edge length of a tile, in pixels. */
  const TILE_SIZE: int := 256

  datatype Tag = Tag(k: string, v: string)

  /** A point. `lat` and `lon` are degrees; the model never computes with
      them itself, they are only handed to the abstract projection. */
  datatype Node = Node(id: nat, lat: real, lon: real, tag: Option<seq<Tag>>)

  /** An ordered chain of node references (the `reference` of each `Nd`). */
  datatype Way = Way(id: nat, nd: seq<nat>, tag: Option<seq<Tag>>)

  /** A relation member: its kind ("node", "way" or "relation"), the id it
      refers to, and its role. */
  datatype Member = Member(memberType: string, memberRef: nat, role: string)

  datatype Relation = Relation(id: nat, member: seq<Member>, tag: Option<seq<Tag>>)

  datatype Osm = Osm(node: seq<Node>, way: seq<Way>, relation: seq<Relation>)

  /** The category of a way or relation, which decides how it is drawn. */
  datatype Type = Park | Forest | Building | Water | WaterRiver | Generic

  /** A reconstructed ring: the id and category of the way that seeded it and
      the node ids in drawing order. */
  datatype LoopWithType = LoopWithType(wayId: Option<nat>, memberType: Type, memeberLoop: seq<nat>)

  /** The node ids that `w` starts or ends with. */
  predicate IsEndpoint(w: Way, n: nat)
  {
    |w.nd| > 0 && (w.nd[0] == n || w.nd[|w.nd| - 1] == n)
  }
}
