/** Result-row cells: property values, graph entities and lists of either, and their codec. */
module Cells {
  import opened Bytes
  import opened Wrappers
  import opened Values
  import opened Encoder
  import opened Decoder
  import Entries
  import Utf8

  /** The element-id strings an entity arrived with. */
  datatype ElementIds = ElementIds(own: bytes, start: bytes, end: bytes)

  datatype Node = Node(id: i64, labels: seq<bytes>, properties: seq<Entry>, ids: Option<ElementIds>)

  datatype Relationship = Relationship(id: i64, start: i64, end: i64, relType: bytes,
                                       properties: seq<Entry>, ids: Option<ElementIds>)

  datatype Path = Path(nodes: seq<Node>, rels: seq<Relationship>, indices: seq<i64>)

  datatype Cell =
    | Plain(v: Value)
    | NodeCell(node: Node)
    | RelationshipCell(rel: Relationship)
    | PathCell(path: Path)
    | ListCell(items: seq<Cell>)

  // ---- Element ids -------------------------------------------------------------------------

  function Digits(n: nat): (s: bytes)
    ensures s != [] && forall i :: 0 <= i < |s| ==> 48 <= s[i] <= 57
  {
    if n < 10 then [48 + n] else Digits(n / 10) + [48 + n % 10]
  }

  /** The decimal an element id is synthesised as. */
  function Decimal(n: i64): bytes {
    if n < 0 then [45] + Digits(-(n as int)) else Digits(n)
  }

  /** The id strings to emit: the ones carried from a wire, otherwise decimals of the integer ids. */
  function OwnId(ids: Option<ElementIds>, id: i64): bytes {
    if ids.Some? then ids.value.own else Decimal(id)
  }

  function StartId(ids: Option<ElementIds>, id: i64): bytes {
    if ids.Some? then ids.value.start else Decimal(id)
  }

  function EndId(ids: Option<ElementIds>, id: i64): bytes {
    if ids.Some? then ids.value.end else Decimal(id)
  }

  // ---- Encoding ----------------------------------------------------------------------------

  function LabelBytes(labels: seq<bytes>): bytes {
    if labels == [] then [] else StringBytes(labels[0]) + LabelBytes(labels[1..])
  }

  function PropertyBytes(properties: seq<Entry>): bytes {
    Header(MAP, |properties|) + PackEntries(properties, 0)
  }

  function NodeBytes(n: Node): bytes {
    StructHeader(NODE, 4)
    + (IntBytes(n.id)
       + (Header(LIST, |n.labels|) + (LabelBytes(n.labels) + (PropertyBytes(n.properties) + StringBytes(OwnId(n.ids, n.id))))))
  }

  function RelationshipBytes(r: Relationship): bytes {
    StructHeader(RELATIONSHIP, 8)
    + (IntBytes(r.id) + (IntBytes(r.start) + (IntBytes(r.end)
       + (StringBytes(r.relType)
          + (PropertyBytes(r.properties)
             + (StringBytes(OwnId(r.ids, r.id))
                + (StringBytes(StartId(r.ids, r.start)) + StringBytes(EndId(r.ids, r.end)))))))))
  }

  /** A path's relationship carries no endpoints: the node sequence supplies them. */
  function UnboundBytes(r: Relationship): bytes {
    StructHeader(UNBOUND_RELATIONSHIP, 4)
    + (IntBytes(r.id) + (StringBytes(r.relType) + (PropertyBytes(r.properties) + StringBytes(OwnId(r.ids, r.id)))))
  }

  function NodesBytes(nodes: seq<Node>): bytes {
    if nodes == [] then [] else NodeBytes(nodes[0]) + NodesBytes(nodes[1..])
  }

  function UnboundsBytes(rels: seq<Relationship>): bytes {
    if rels == [] then [] else UnboundBytes(rels[0]) + UnboundsBytes(rels[1..])
  }

  function IndexBytes(indices: seq<i64>): bytes {
    if indices == [] then [] else IntBytes(indices[0]) + IndexBytes(indices[1..])
  }

  function PathBytes(p: Path): bytes {
    StructHeader(PATH, 3)
    + (Header(LIST, |p.nodes|) + (NodesBytes(p.nodes)
       + (Header(LIST, |p.rels|) + (UnboundsBytes(p.rels)
          + (Header(LIST, |p.indices|) + IndexBytes(p.indices))))))
  }

  function CellBytes(c: Cell): bytes
    decreases c, 1
  {
    match c
    case Plain(v) => Pack(v, 0)
    case NodeCell(n) => NodeBytes(n)
    case RelationshipCell(r) => RelationshipBytes(r)
    case PathCell(p) => PathBytes(p)
    case ListCell(items) => Header(LIST, |items|) + CellsBytes(items)
  }

  function CellsBytes(items: seq<Cell>): bytes
    decreases items, 0
  {
    if items == [] then [] else CellBytes(items[0]) + CellsBytes(items[1..])
  }

  // ---- The poison an over-long collection leaves -------------------------------------------

  function OverlongProperties(properties: seq<Entry>): Option<nat> {
    First(Refused(|properties|), OverlongEntries(properties, 0))
  }

  function OverlongLabels(labels: seq<bytes>): Option<nat> {
    if labels == [] then None else First(Refused(|labels[0]|), OverlongLabels(labels[1..]))
  }

  function OverlongNode(n: Node): Option<nat> {
    First(Refused(|n.labels|),
          First(OverlongLabels(n.labels), First(OverlongProperties(n.properties), Refused(|OwnId(n.ids, n.id)|))))
  }

  function OverlongUnbound(r: Relationship): Option<nat> {
    First(Refused(|r.relType|), First(OverlongProperties(r.properties), Refused(|OwnId(r.ids, r.id)|)))
  }

  function OverlongRelationship(r: Relationship): Option<nat> {
    First(OverlongUnbound(r), First(Refused(|StartId(r.ids, r.start)|), Refused(|EndId(r.ids, r.end)|)))
  }

  function OverlongNodes(nodes: seq<Node>): Option<nat> {
    if nodes == [] then None else First(OverlongNode(nodes[0]), OverlongNodes(nodes[1..]))
  }

  function OverlongUnbounds(rels: seq<Relationship>): Option<nat> {
    if rels == [] then None else First(OverlongUnbound(rels[0]), OverlongUnbounds(rels[1..]))
  }

  function OverlongPath(p: Path): Option<nat> {
    First(Refused(|p.nodes|),
          First(OverlongNodes(p.nodes),
                First(Refused(|p.rels|), First(OverlongUnbounds(p.rels), Refused(|p.indices|)))))
  }

  function OverlongCell(c: Cell): Option<nat>
    decreases c, 1
  {
    match c
    case Plain(v) => Overlong(v, 0)
    case NodeCell(n) => OverlongNode(n)
    case RelationshipCell(r) => OverlongRelationship(r)
    case PathCell(p) => OverlongPath(p)
    case ListCell(items) => First(Refused(|items|), OverlongCells(items))
  }

  function OverlongCells(items: seq<Cell>): Option<nat>
    decreases items, 0
  {
    if items == [] then None else First(OverlongCell(items[0]), OverlongCells(items[1..]))
  }

  // ---- Decoding ----------------------------------------------------------------------------

  function ExpectFields(head: (byte, nat), want: nat, rest: bytes): Read<byte> {
    if head.1 == want then Got(head.0, rest) else Bad(WrongFieldCount(head.0, head.1))
  }

  function UnpackProperties(h: Host, s: bytes, depth: nat, budget: nat): (r: Decoded<seq<Entry>>)
    requires depth <= MAX_DECODE_DEPTH
    ensures r.Ok? ==> |r.rest| < |s| && r.budget <= budget
  {
    var (n, t, _) :- ReadHeader(MAP, s).At(budget);
    if depth + 1 > MAX_DECODE_DEPTH then Err(TooDeep) else
    var (pairs, rest, left) :- UnpackPairs(h, n, t, depth + 1, budget);
    Ok(Entries.Dedup(pairs), rest, left)
  }

  function UnpackLabels(n: nat, s: bytes, budget: nat): (r: Decoded<seq<bytes>>)
    ensures r.Ok? ==> |r.rest| <= |s| && r.budget <= budget && |r.value| == n
  {
    if n == 0 then Ok([], s, budget)
    else if budget == 0 then Err(TooManyElements) else
    var (text, t, _) :- ReadString(s).At(budget);
    Prepend([text], UnpackLabels(n - 1, t, budget - 1))
  }

  function UnpackNode(h: Host, s: bytes, depth: nat, budget: nat): (r: Decoded<Node>)
    requires depth <= MAX_DECODE_DEPTH
    ensures r.Ok? ==> |r.rest| < |s| && r.budget <= budget
  {
    var (head, t0, _) :- ReadStructHeader(s).At(budget);
    var (_, t1, _) :- ExpectFields(head, 4, t0).At(budget);
    var (id, t2, _) :- ReadInt(t1).At(budget);
    var (n, t3, _) :- ReadHeader(LIST, t2).At(budget);
    var (labels, t4, b) :- UnpackLabels(n, t3, budget);
    var (properties, t5, b') :- UnpackProperties(h, t4, depth, b);
    var (own, rest, left) :- ReadString(t5).At(b');
    Ok(Node(id, labels, properties, Some(ElementIds(own, [], []))), rest, left)
  }

  function UnpackRelationship(h: Host, s: bytes, depth: nat, budget: nat): (r: Decoded<Relationship>)
    requires depth <= MAX_DECODE_DEPTH
    ensures r.Ok? ==> |r.rest| < |s| && r.budget <= budget
  {
    var (head, t0, _) :- ReadStructHeader(s).At(budget);
    var (_, t1, _) :- ExpectFields(head, 8, t0).At(budget);
    var (id, t2, _) :- ReadInt(t1).At(budget);
    var (start, t3, _) :- ReadInt(t2).At(budget);
    var (end, t4, _) :- ReadInt(t3).At(budget);
    var (relType, t5, _) :- ReadString(t4).At(budget);
    var (properties, t6, b) :- UnpackProperties(h, t5, depth, budget);
    var (own, t7, _) :- ReadString(t6).At(b);
    var (startId, t8, _) :- ReadString(t7).At(b);
    var (endId, rest, left) :- ReadString(t8).At(b);
    Ok(Relationship(id, start, end, relType, properties, Some(ElementIds(own, startId, endId))), rest, left)
  }

  function UnpackUnbound(h: Host, s: bytes, depth: nat, budget: nat): (r: Decoded<Relationship>)
    requires depth <= MAX_DECODE_DEPTH
    ensures r.Ok? ==> |r.rest| < |s| && r.budget <= budget
  {
    var (head, t0, _) :- ReadStructHeader(s).At(budget);
    var (_, t1, _) :- ExpectFields(head, 4, t0).At(budget);
    var (id, t2, _) :- ReadInt(t1).At(budget);
    var (relType, t3, _) :- ReadString(t2).At(budget);
    var (properties, t4, b) :- UnpackProperties(h, t3, depth, budget);
    var (own, rest, left) :- ReadString(t4).At(b);
    Ok(Relationship(id, 0, 0, relType, properties, Some(ElementIds(own, [], []))), rest, left)
  }

  function UnpackNodes(h: Host, n: nat, s: bytes, depth: nat, budget: nat): (r: Decoded<seq<Node>>)
    requires depth <= MAX_DECODE_DEPTH
    ensures r.Ok? ==> |r.rest| <= |s| && r.budget <= budget && |r.value| == n
    decreases |s|
  {
    if n == 0 then Ok([], s, budget)
    else if budget == 0 then Err(TooManyElements) else
    var (node, t, b) :- UnpackNode(h, s, depth, budget - 1);
    Prepend([node], UnpackNodes(h, n - 1, t, depth, b))
  }

  function UnpackUnbounds(h: Host, n: nat, s: bytes, depth: nat, budget: nat): (r: Decoded<seq<Relationship>>)
    requires depth <= MAX_DECODE_DEPTH
    ensures r.Ok? ==> |r.rest| <= |s| && r.budget <= budget && |r.value| == n
    decreases |s|
  {
    if n == 0 then Ok([], s, budget)
    else if budget == 0 then Err(TooManyElements) else
    var (rel, t, b) :- UnpackUnbound(h, s, depth, budget - 1);
    Prepend([rel], UnpackUnbounds(h, n - 1, t, depth, b))
  }

  function UnpackIndices(n: nat, s: bytes, budget: nat): (r: Decoded<seq<i64>>)
    ensures r.Ok? ==> |r.rest| <= |s| && r.budget <= budget && |r.value| == n
  {
    if n == 0 then Ok([], s, budget)
    else if budget == 0 then Err(TooManyElements) else
    var (i, t, _) :- ReadInt(s).At(budget);
    Prepend([i], UnpackIndices(n - 1, t, budget - 1))
  }

  function UnpackPath(h: Host, s: bytes, depth: nat, budget: nat): (r: Decoded<Path>)
    requires depth <= MAX_DECODE_DEPTH
    ensures r.Ok? ==> |r.rest| < |s| && r.budget <= budget
  {
    var (head, t0, _) :- ReadStructHeader(s).At(budget);
    var (_, t1, _) :- ExpectFields(head, 3, t0).At(budget);
    var (n, t2, _) :- ReadHeader(LIST, t1).At(budget);
    var (nodes, t3, b) :- UnpackNodes(h, n, t2, depth, budget);
    var (m, t4, _) :- ReadHeader(LIST, t3).At(b);
    var (rels, t5, b') :- UnpackUnbounds(h, m, t4, depth, b);
    var (k, t6, _) :- ReadHeader(LIST, t5).At(b');
    var (indices, rest, left) :- UnpackIndices(k, t6, b');
    Ok(Path(nodes, rels, indices), rest, left)
  }

  /** A structure is told apart by its tag, peeked at; a list is decoded cell by cell. */
  function UnpackCell(h: Host, s: bytes, depth: nat, budget: nat): (r: Decoded<Cell>)
    requires depth <= MAX_DECODE_DEPTH
    ensures r.Ok? ==> |r.rest| < |s| && r.budget <= budget
    decreases |s|, 0
  {
    if s == [] then Err(UnexpectedEnd)
    else if IsStruct(s[0]) then
      if |s| < 2 then Err(Truncated)
      else if s[1] == NODE then
        var (n, rest, left) :- UnpackNode(h, s, depth, budget);
        Ok(NodeCell(n), rest, left)
      else if s[1] == RELATIONSHIP then
        var (r, rest, left) :- UnpackRelationship(h, s, depth, budget);
        Ok(RelationshipCell(r), rest, left)
      else if s[1] == PATH then
        var (p, rest, left) :- UnpackPath(h, s, depth, budget);
        Ok(PathCell(p), rest, left)
      else
        var (v, rest, left) :- Unpack(h, s, depth, budget);
        Ok(Plain(v), rest, left)
    else if InFamily(LIST, s[0]) then
      var (n, t, _) :- ReadHeader(LIST, s).At(budget);
      if depth + 1 > MAX_DECODE_DEPTH then Err(TooDeep) else
      var (items, rest, left) :- UnpackCells(h, n, t, depth + 1, budget);
      Ok(ListCell(items), rest, left)
    else
      var (v, rest, left) :- Unpack(h, s, depth, budget);
      Ok(Plain(v), rest, left)
  }

  function UnpackCells(h: Host, n: nat, s: bytes, depth: nat, budget: nat): (r: Decoded<seq<Cell>>)
    requires depth <= MAX_DECODE_DEPTH
    ensures r.Ok? ==> |r.rest| <= |s| && r.budget <= budget && |r.value| == n
    decreases |s|, 1
  {
    if n == 0 then Ok([], s, budget)
    else if budget == 0 then Err(TooManyElements) else
    var (c, t, b) :- UnpackCell(h, s, depth, budget - 1);
    Prepend([c], UnpackCells(h, n - 1, t, depth, b))
  }

  // ---- Domain and measures -----------------------------------------------------------------

  ghost predicate CanonicalProperties(h: Host, properties: seq<Entry>) {
    CanonicalEntries(h, properties) && DistinctKeys(properties)
  }

  predicate FitsProperties(properties: seq<Entry>) {
    |properties| <= I32_MAX && FitsEntries(properties)
  }

  /** A string that is UTF-8 and short enough for a header. */
  predicate Text(s: bytes) {
    Utf8.Valid(s) && |s| <= I32_MAX
  }

  predicate Texts(labels: seq<bytes>) {
    forall i :: 0 <= i < |labels| ==> Text(labels[i])
  }

  ghost predicate GoodNode(h: Host, n: Node) {
    && Texts(n.labels) && |n.labels| <= I32_MAX
    && CanonicalProperties(h, n.properties) && FitsProperties(n.properties)
    && (n.ids.Some? ==> Text(n.ids.value.own))
  }

  ghost predicate GoodUnbound(h: Host, r: Relationship) {
    && Text(r.relType)
    && CanonicalProperties(h, r.properties) && FitsProperties(r.properties)
    && (r.ids.Some? ==> Text(r.ids.value.own))
  }

  ghost predicate GoodRelationship(h: Host, r: Relationship) {
    GoodUnbound(h, r) && (r.ids.Some? ==> Text(r.ids.value.start) && Text(r.ids.value.end))
  }

  ghost predicate GoodPath(h: Host, p: Path) {
    && |p.nodes| <= I32_MAX && (forall i :: 0 <= i < |p.nodes| ==> GoodNode(h, p.nodes[i]))
    && |p.rels| <= I32_MAX && (forall i :: 0 <= i < |p.rels| ==> GoodUnbound(h, p.rels[i]))
    && |p.indices| <= I32_MAX
  }

  /** The cells the codec carries faithfully: distinct keys, real strings, normalised temporals. */
  ghost predicate GoodCell(h: Host, c: Cell)
    decreases c, 1
  {
    match c
    case Plain(v) => Canonical(h, v) && Fits(v)
    case NodeCell(n) => GoodNode(h, n)
    case RelationshipCell(r) => GoodRelationship(h, r)
    case PathCell(p) => GoodPath(h, p)
    case ListCell(items) => |items| <= I32_MAX && GoodCells(h, items)
  }

  ghost predicate GoodCells(h: Host, items: seq<Cell>)
    decreases items, 0
  {
    items == [] || (GoodCell(h, items[0]) && GoodCells(h, items[1..]))
  }

  function PropertiesNesting(properties: seq<Entry>): nat {
    1 + EntriesNesting(properties)
  }

  function NodesNesting(nodes: seq<Node>): nat {
    if nodes == [] then 0 else Max(PropertiesNesting(nodes[0].properties), NodesNesting(nodes[1..]))
  }

  function RelsNesting(rels: seq<Relationship>): nat {
    if rels == [] then 0 else Max(PropertiesNesting(rels[0].properties), RelsNesting(rels[1..]))
  }

  function CellNesting(c: Cell): nat
    decreases c, 1
  {
    match c
    case Plain(v) => Nesting(v)
    case NodeCell(n) => PropertiesNesting(n.properties)
    case RelationshipCell(r) => PropertiesNesting(r.properties)
    case PathCell(p) => Max(NodesNesting(p.nodes), RelsNesting(p.rels))
    case ListCell(items) => 1 + CellsNesting(items)
  }

  function CellsNesting(items: seq<Cell>): nat
    decreases items, 0
  {
    if items == [] then 0 else Max(CellNesting(items[0]), CellsNesting(items[1..]))
  }

  function NodeElements(n: Node): nat {
    |n.labels| + EntriesElements(n.properties)
  }

  function NodesElements(nodes: seq<Node>): (n: nat)
    ensures n >= |nodes|
  {
    if nodes == [] then 0 else 1 + NodeElements(nodes[0]) + NodesElements(nodes[1..])
  }

  function RelsElements(rels: seq<Relationship>): (n: nat)
    ensures n >= |rels|
  {
    if rels == [] then 0 else 1 + EntriesElements(rels[0].properties) + RelsElements(rels[1..])
  }

  function CellElements(c: Cell): nat
    decreases c, 1
  {
    match c
    case Plain(v) => Elements(v)
    case NodeCell(n) => NodeElements(n)
    case RelationshipCell(r) => EntriesElements(r.properties)
    case PathCell(p) => NodesElements(p.nodes) + RelsElements(p.rels) + |p.indices|
    case ListCell(items) => CellsElements(items)
  }

  function CellsElements(items: seq<Cell>): (n: nat)
    ensures n >= |items|
    decreases items, 0
  {
    if items == [] then 0 else 1 + CellElements(items[0]) + CellsElements(items[1..])
  }

  // ---- The form a cell takes after one trip ------------------------------------------------

  function NormalNode(n: Node): Node {
    n.(ids := Some(ElementIds(OwnId(n.ids, n.id), [], [])))
  }

  function NormalRelationship(r: Relationship): Relationship {
    r.(ids := Some(ElementIds(OwnId(r.ids, r.id), StartId(r.ids, r.start), EndId(r.ids, r.end))))
  }

  function NormalUnbound(r: Relationship): Relationship {
    r.(start := 0, end := 0, ids := Some(ElementIds(OwnId(r.ids, r.id), [], [])))
  }

  function NormalNodes(nodes: seq<Node>): (r: seq<Node>)
    ensures |r| == |nodes|
  {
    if nodes == [] then [] else [NormalNode(nodes[0])] + NormalNodes(nodes[1..])
  }

  function NormalUnbounds(rels: seq<Relationship>): (r: seq<Relationship>)
    ensures |r| == |rels|
  {
    if rels == [] then [] else [NormalUnbound(rels[0])] + NormalUnbounds(rels[1..])
  }

  /** A plain list becomes a list of cells. */
  function NormalValue(v: Value): Cell
    decreases v, 1
  {
    if v.List? then ListCell(NormalValues(v.items)) else Plain(v)
  }

  function NormalValues(items: seq<Value>): (r: seq<Cell>)
    ensures |r| == |items|
    decreases items, 0
  {
    if items == [] then [] else [NormalValue(items[0])] + NormalValues(items[1..])
  }

  function Normal(c: Cell): Cell
    decreases c, 1
  {
    match c
    case Plain(v) => NormalValue(v)
    case NodeCell(n) => NodeCell(NormalNode(n))
    case RelationshipCell(r) => RelationshipCell(NormalRelationship(r))
    case PathCell(p) => PathCell(Path(NormalNodes(p.nodes), NormalUnbounds(p.rels), p.indices))
    case ListCell(items) => ListCell(NormalCells(items))
  }

  function NormalCells(items: seq<Cell>): (r: seq<Cell>)
    ensures |r| == |items|
    decreases items, 0
  {
    if items == [] then [] else [Normal(items[0])] + NormalCells(items[1..])
  }
}
