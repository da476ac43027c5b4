/** Re-encoding a decoded cell gives the bytes it was decoded from. */
module CellRoundTrip {
  import opened Bytes
  import opened Wrappers
  import opened Values
  import opened Encoder
  import opened Decoder
  import opened ItemRoundTrip
  import opened Cells
  import Entries
  import Utf8
  import ValueRoundTrip

  // ---- Element ids -------------------------------------------------------------------------

  function Pow10(k: nat): nat {
    if k == 0 then 1 else 10 * Pow10(k - 1)
  }

  lemma {:induction false} DigitsShort(n: nat, k: nat)
    requires k >= 1 && n < Pow10(k)
    ensures |Digits(n)| <= k
  {
    if n >= 10 {
      DigitsShort(n / 10, k - 1);
    }
  }

  lemma PowersOfTen()
    ensures Pow10(19) > 0x8000_0000_0000_0000
  {
    assert Pow10(3) == 1_000 && Pow10(6) == 1_000_000 && Pow10(9) == 1_000_000_000;
    assert Pow10(12) == 1_000_000_000_000 && Pow10(15) == 1_000_000_000_000_000;
    assert Pow10(18) == 1_000_000_000_000_000_000;
  }

  /** A synthesised id is always a string the codec carries. */
  lemma DecimalIsText(n: i64)
    ensures Text(Decimal(n))
  {
    hide Utf8.Valid;
    PowersOfTen();
    DigitsShort(if n < 0 then -(n as int) else n, 19);
    Utf8.AsciiIsValid(Decimal(n));
  }

  /** So an id string is one whenever the carried ids, if any, are. */
  lemma OwnIdIsText(ids: Option<ElementIds>, id: i64)
    requires ids.Some? ==> Text(ids.value.own)
    ensures Text(OwnId(ids, id))
  {
    hide Text, Decimal;
    DecimalIsText(id);
  }

  lemma EndIdsAreText(ids: Option<ElementIds>, start: i64, end: i64)
    requires ids.Some? ==> Text(ids.value.start) && Text(ids.value.end)
    ensures Text(StartId(ids, start)) && Text(EndId(ids, end))
  {
    hide Text, Decimal;
    DecimalIsText(start);
    DecimalIsText(end);
  }

  // ---- Entities ----------------------------------------------------------------------------

  lemma PropertiesRoundTrip(h: Host, properties: seq<Entry>, t: bytes, depth: nat, budget: nat)
    requires CanonicalProperties(h, properties) && FitsProperties(properties)
    requires depth + PropertiesNesting(properties) <= MAX_DECODE_DEPTH
    requires EntriesElements(properties) <= budget <= MAX_DECODE_ELEMENTS
    ensures UnpackProperties(h, PropertyBytes(properties) + t, depth, budget)
         == Ok(properties, t, budget - EntriesElements(properties))
  {
    hide ReadHeader, Header, UnpackPairs, PackEntries, Entries.Dedup, CanonicalEntries, FitsEntries;
    var body := PackEntries(properties, 0) + t;
    assert PropertyBytes(properties) + t == Header(MAP, |properties|) + body;
    HeaderRoundTrip(MAP, |properties|, body);
    ValueRoundTrip.EntriesRoundTrip(h, properties, 0, t, depth + 1, budget);
    Entries.DedupDistinct(properties);
  }

  lemma {:induction false} LabelsRoundTrip(labels: seq<bytes>, t: bytes, budget: nat)
    requires Texts(labels) && |labels| <= budget
    ensures UnpackLabels(|labels|, LabelBytes(labels) + t, budget) == Ok(labels, t, budget - |labels|)
  {
    hide ReadString, StringBytes, Utf8.Valid;
    if labels == [] {
      assert LabelBytes(labels) + t == t;
    } else {
      var rest := LabelBytes(labels[1..]) + t;
      assert LabelBytes(labels) + t == StringBytes(labels[0]) + rest;
      assert Text(labels[0]);
      StringRoundTrip(labels[0], rest);
      LabelsRoundTrip(labels[1..], t, budget - 1);
      assert [labels[0]] + labels[1..] == labels;
    }
  }

  lemma NodeRoundTrip(h: Host, n: Node, t: bytes, depth: nat, budget: nat)
    requires GoodNode(h, n) && depth + PropertiesNesting(n.properties) <= MAX_DECODE_DEPTH
    requires NodeElements(n) <= budget <= MAX_DECODE_ELEMENTS
    ensures UnpackNode(h, NodeBytes(n) + t, depth, budget) == Ok(NormalNode(n), t, budget - NodeElements(n))
  {
    hide ReadStructHeader, StructHeader, ReadInt, IntBytes, ReadHeader, Header, UnpackLabels, LabelBytes,
      UnpackProperties, PropertyBytes, ReadString, StringBytes, OwnId, Utf8.Valid, CanonicalProperties, FitsProperties;
    var own := OwnId(n.ids, n.id);
    OwnIdIsText(n.ids, n.id);
    var t5 := StringBytes(own) + t;
    var t4 := PropertyBytes(n.properties) + t5;
    var t3 := LabelBytes(n.labels) + t4;
    var t2 := Header(LIST, |n.labels|) + t3;
    var t1 := IntBytes(n.id) + t2;
    assert NodeBytes(n) + t == StructHeader(NODE, 4) + t1;
    StructHeaderRoundTrip(NODE, 4, t1);
    IntRoundTrip(n.id, t2);
    HeaderRoundTrip(LIST, |n.labels|, t3);
    LabelsRoundTrip(n.labels, t4, budget);
    PropertiesRoundTrip(h, n.properties, t5, depth, budget - |n.labels|);
    StringRoundTrip(own, t);
  }

  lemma RelationshipRoundTrip(h: Host, r: Relationship, t: bytes, depth: nat, budget: nat)
    requires GoodRelationship(h, r) && depth + PropertiesNesting(r.properties) <= MAX_DECODE_DEPTH
    requires EntriesElements(r.properties) <= budget <= MAX_DECODE_ELEMENTS
    ensures UnpackRelationship(h, RelationshipBytes(r) + t, depth, budget)
         == Ok(NormalRelationship(r), t, budget - EntriesElements(r.properties))
  {
    hide ReadStructHeader, StructHeader, ReadInt, IntBytes, UnpackProperties, PropertyBytes, ReadString, StringBytes,
      OwnId, StartId, EndId, Utf8.Valid, CanonicalProperties, FitsProperties;
    var own, start, end := OwnId(r.ids, r.id), StartId(r.ids, r.start), EndId(r.ids, r.end);
    OwnIdIsText(r.ids, r.id);
    EndIdsAreText(r.ids, r.start, r.end);
    var t8 := StringBytes(end) + t;
    var t7 := StringBytes(start) + t8;
    var t6 := StringBytes(own) + t7;
    var t5 := PropertyBytes(r.properties) + t6;
    var t4 := StringBytes(r.relType) + t5;
    var t3 := IntBytes(r.end) + t4;
    var t2 := IntBytes(r.start) + t3;
    var t1 := IntBytes(r.id) + t2;
    assert RelationshipBytes(r) + t == StructHeader(RELATIONSHIP, 8) + t1;
    StructHeaderRoundTrip(RELATIONSHIP, 8, t1);
    IntRoundTrip(r.id, t2);
    IntRoundTrip(r.start, t3);
    IntRoundTrip(r.end, t4);
    StringRoundTrip(r.relType, t5);
    PropertiesRoundTrip(h, r.properties, t6, depth, budget);
    StringRoundTrip(own, t7);
    StringRoundTrip(start, t8);
    StringRoundTrip(end, t);
  }

  lemma UnboundRoundTrip(h: Host, r: Relationship, t: bytes, depth: nat, budget: nat)
    requires GoodUnbound(h, r) && depth + PropertiesNesting(r.properties) <= MAX_DECODE_DEPTH
    requires EntriesElements(r.properties) <= budget <= MAX_DECODE_ELEMENTS
    ensures UnpackUnbound(h, UnboundBytes(r) + t, depth, budget)
         == Ok(NormalUnbound(r), t, budget - EntriesElements(r.properties))
  {
    hide ReadStructHeader, StructHeader, ReadInt, IntBytes, UnpackProperties, PropertyBytes, ReadString, StringBytes,
      OwnId, Utf8.Valid, CanonicalProperties, FitsProperties;
    var own := OwnId(r.ids, r.id);
    OwnIdIsText(r.ids, r.id);
    var t4 := StringBytes(own) + t;
    var t3 := PropertyBytes(r.properties) + t4;
    var t2 := StringBytes(r.relType) + t3;
    var t1 := IntBytes(r.id) + t2;
    assert UnboundBytes(r) + t == StructHeader(UNBOUND_RELATIONSHIP, 4) + t1;
    StructHeaderRoundTrip(UNBOUND_RELATIONSHIP, 4, t1);
    IntRoundTrip(r.id, t2);
    StringRoundTrip(r.relType, t3);
    PropertiesRoundTrip(h, r.properties, t4, depth, budget);
    StringRoundTrip(own, t);
  }

  lemma {:induction false} NodesRoundTrip(h: Host, nodes: seq<Node>, t: bytes, depth: nat, budget: nat)
    requires forall i :: 0 <= i < |nodes| ==> GoodNode(h, nodes[i])
    requires depth + NodesNesting(nodes) <= MAX_DECODE_DEPTH
    requires NodesElements(nodes) <= budget <= MAX_DECODE_ELEMENTS
    ensures UnpackNodes(h, |nodes|, NodesBytes(nodes) + t, depth, budget)
         == Ok(NormalNodes(nodes), t, budget - NodesElements(nodes))
  {
    hide UnpackNode, NodeBytes, NormalNode, GoodNode, NodeElements;
    if nodes == [] {
      assert NodesBytes(nodes) + t == t;
    } else {
      var rest := NodesBytes(nodes[1..]) + t;
      assert NodesBytes(nodes) + t == NodeBytes(nodes[0]) + rest;
      NodeRoundTrip(h, nodes[0], rest, depth, budget - 1);
      NodesRoundTrip(h, nodes[1..], t, depth, budget - 1 - NodeElements(nodes[0]));
    }
  }

  lemma {:induction false} UnboundsRoundTrip(h: Host, rels: seq<Relationship>, t: bytes, depth: nat, budget: nat)
    requires forall i :: 0 <= i < |rels| ==> GoodUnbound(h, rels[i])
    requires depth + RelsNesting(rels) <= MAX_DECODE_DEPTH
    requires RelsElements(rels) <= budget <= MAX_DECODE_ELEMENTS
    ensures UnpackUnbounds(h, |rels|, UnboundsBytes(rels) + t, depth, budget)
         == Ok(NormalUnbounds(rels), t, budget - RelsElements(rels))
  {
    hide UnpackUnbound, UnboundBytes, NormalUnbound, GoodUnbound;
    if rels == [] {
      assert UnboundsBytes(rels) + t == t;
    } else {
      var rest := UnboundsBytes(rels[1..]) + t;
      assert UnboundsBytes(rels) + t == UnboundBytes(rels[0]) + rest;
      UnboundRoundTrip(h, rels[0], rest, depth, budget - 1);
      UnboundsRoundTrip(h, rels[1..], t, depth, budget - 1 - EntriesElements(rels[0].properties));
    }
  }

  lemma {:induction false} IndicesRoundTrip(indices: seq<i64>, t: bytes, budget: nat)
    requires |indices| <= budget
    ensures UnpackIndices(|indices|, IndexBytes(indices) + t, budget) == Ok(indices, t, budget - |indices|)
  {
    hide ReadInt, IntBytes;
    if indices == [] {
      assert IndexBytes(indices) + t == t;
    } else {
      var rest := IndexBytes(indices[1..]) + t;
      assert IndexBytes(indices) + t == IntBytes(indices[0]) + rest;
      IntRoundTrip(indices[0], rest);
      IndicesRoundTrip(indices[1..], t, budget - 1);
      assert [indices[0]] + indices[1..] == indices;
    }
  }

  lemma PathRoundTrip(h: Host, p: Path, t: bytes, depth: nat, budget: nat)
    requires GoodPath(h, p) && depth + CellNesting(PathCell(p)) <= MAX_DECODE_DEPTH
    requires CellElements(PathCell(p)) <= budget <= MAX_DECODE_ELEMENTS
    ensures UnpackPath(h, PathBytes(p) + t, depth, budget)
         == Ok(Path(NormalNodes(p.nodes), NormalUnbounds(p.rels), p.indices), t, budget - CellElements(PathCell(p)))
  {
    hide ReadStructHeader, StructHeader, ReadHeader, Header, UnpackNodes, NodesBytes, UnpackUnbounds, UnboundsBytes,
      UnpackIndices, IndexBytes, NormalNodes, NormalUnbounds, GoodNode, GoodUnbound, NodesNesting, RelsNesting,
      NodesElements, RelsElements;
    var t6 := IndexBytes(p.indices) + t;
    var t5 := Header(LIST, |p.indices|) + t6;
    var t4 := UnboundsBytes(p.rels) + t5;
    var t3 := Header(LIST, |p.rels|) + t4;
    var t2 := NodesBytes(p.nodes) + t3;
    var t1 := Header(LIST, |p.nodes|) + t2;
    assert PathBytes(p) + t == StructHeader(PATH, 3) + t1;
    StructHeaderRoundTrip(PATH, 3, t1);
    HeaderRoundTrip(LIST, |p.nodes|, t2);
    NodesRoundTrip(h, p.nodes, t3, depth, budget);
    HeaderRoundTrip(LIST, |p.rels|, t4);
    UnboundsRoundTrip(h, p.rels, t5, depth, budget - NodesElements(p.nodes));
    HeaderRoundTrip(LIST, |p.indices|, t6);
    IndicesRoundTrip(p.indices, t, budget - NodesElements(p.nodes) - RelsElements(p.rels));
  }

  // ---- Plain values seen as cells ----------------------------------------------------------

  /** A decoded value that is not a list is the same value as a cell. */
  lemma UnpackCellPlain(h: Host, s: bytes, depth: nat, budget: nat)
    requires depth <= MAX_DECODE_DEPTH
    requires Unpack(h, s, depth, budget).Ok? && !Unpack(h, s, depth, budget).value.List?
    ensures var (v, rest, left) := Unpack(h, s, depth, budget).Extract();
            UnpackCell(h, s, depth, budget) == Ok(Plain(v), rest, left)
  {
    hide UnpackItems, UnpackPairs, UnpackCells, ReadScalar, UnpackNode, UnpackRelationship, UnpackPath, ReadTemporal,
      UnpackCoords, ReadInt;
    assert KindOf(s[0]) != ListKind;
    if IsStruct(s[0]) {
      assert KindOf(s[0]) == StructKind;
      var head := ReadStructHeader(s);
      assert head.value.0 == s[1];
      assert UnpackStructure(h, s[1], head.value.1, head.rest, depth + 1, budget).Ok?;
    }
  }

  lemma UnpackCellList(h: Host, n: nat, body: bytes, depth: nat, budget: nat)
    requires n <= MAX_COLLECTION_LEN && depth < MAX_DECODE_DEPTH
    ensures UnpackCells(h, n, body, depth + 1, budget).Ok? ==>
              var (items, rest, left) := UnpackCells(h, n, body, depth + 1, budget).Extract();
              UnpackCell(h, Header(LIST, n) + body, depth, budget) == Ok(ListCell(items), rest, left)
  {
    hide UnpackCells, Unpack;
    HeaderRoundTrip(LIST, n, body);
    assert (Header(LIST, n) + body)[0] == Header(LIST, n)[0];
  }

  lemma {:induction false} ValueAsCell(h: Host, v: Value, e: nat, t: bytes, depth: nat, budget: nat)
    requires Canonical(h, v) && Fits(v) && ValueRoundTrip.Room(v, e, depth, budget)
    ensures UnpackCell(h, Pack(v, e) + t, depth, budget) == Ok(NormalValue(v), t, budget - Elements(v))
    decreases v, 1
  {
    hide Unpack, UnpackCell, UnpackCells, PackItems, Header, NormalValues, CanonicalItems, FitsItems, ItemsNesting,
      ItemsElements;
    if v.List? {
      var body := PackItems(v.items, e + 1) + t;
      assert Pack(v, e) + t == Header(LIST, |v.items|) + body;
      ValuesAsCells(h, v.items, e + 1, t, depth + 1, budget);
      UnpackCellList(h, |v.items|, body, depth, budget);
    } else {
      ValueRoundTrip.RoundTrip(h, v, e, t, depth, budget);
      UnpackCellPlain(h, Pack(v, e) + t, depth, budget);
    }
  }

  lemma {:induction false} ValuesAsCells(h: Host, items: seq<Value>, e: nat, t: bytes, depth: nat, budget: nat)
    requires CanonicalItems(h, items) && FitsItems(items)
    requires e <= depth && depth + ItemsNesting(items) <= MAX_DECODE_DEPTH
    requires ItemsElements(items) <= budget <= MAX_DECODE_ELEMENTS
    ensures UnpackCells(h, |items|, PackItems(items, e) + t, depth, budget)
         == Ok(NormalValues(items), t, budget - ItemsElements(items))
    decreases items, 0
  {
    hide UnpackCell, Pack, NormalValue, Canonical, Fits, Nesting, Elements;
    if items == [] {
      assert PackItems(items, e) + t == t;
    } else {
      var rest := PackItems(items[1..], e) + t;
      assert PackItems(items, e) + t == Pack(items[0], e) + rest;
      ValueAsCell(h, items[0], e, rest, depth, budget - 1);
      ValuesAsCells(h, items[1..], e, t, depth, budget - 1 - Elements(items[0]));
    }
  }

  // ---- Any cell ----------------------------------------------------------------------------

  lemma UnpackCellEntity(h: Host, c: Cell, t: bytes, depth: nat, budget: nat)
    requires depth <= MAX_DECODE_DEPTH
    ensures c.NodeCell? && UnpackNode(h, NodeBytes(c.node) + t, depth, budget).Ok? ==>
              var (n, rest, left) := UnpackNode(h, NodeBytes(c.node) + t, depth, budget).Extract();
              UnpackCell(h, CellBytes(c) + t, depth, budget) == Ok(NodeCell(n), rest, left)
    ensures c.RelationshipCell? && UnpackRelationship(h, RelationshipBytes(c.rel) + t, depth, budget).Ok? ==>
              var (r, rest, left) := UnpackRelationship(h, RelationshipBytes(c.rel) + t, depth, budget).Extract();
              UnpackCell(h, CellBytes(c) + t, depth, budget) == Ok(RelationshipCell(r), rest, left)
    ensures c.PathCell? && UnpackPath(h, PathBytes(c.path) + t, depth, budget).Ok? ==>
              var (p, rest, left) := UnpackPath(h, PathBytes(c.path) + t, depth, budget).Extract();
              UnpackCell(h, CellBytes(c) + t, depth, budget) == Ok(PathCell(p), rest, left)
  {
    hide UnpackNode, UnpackRelationship, UnpackPath, IntBytes, StringBytes, PropertyBytes, Unpack, UnpackCells;
  }

  lemma {:induction false} CellTrip(h: Host, c: Cell, t: bytes, depth: nat, budget: nat)
    requires GoodCell(h, c) && depth + CellNesting(c) <= MAX_DECODE_DEPTH
    requires CellElements(c) <= budget <= MAX_DECODE_ELEMENTS
    ensures UnpackCell(h, CellBytes(c) + t, depth, budget) == Ok(Normal(c), t, budget - CellElements(c))
    decreases c, 1
  {
    hide UnpackCell, UnpackCells, CellsBytes, Header, NormalCells, NodeBytes, RelationshipBytes, PathBytes, Pack,
      UnpackNode, UnpackRelationship, UnpackPath, GoodNode, GoodRelationship, GoodPath, Canonical, Fits, Nesting,
      Elements, NormalValue, GoodCells, CellsNesting, CellsElements;
    match c
    case Plain(v) => ValueAsCell(h, v, 0, t, depth, budget);
    case NodeCell(n) =>
      NodeRoundTrip(h, n, t, depth, budget);
      UnpackCellEntity(h, c, t, depth, budget);
    case RelationshipCell(r) =>
      RelationshipRoundTrip(h, r, t, depth, budget);
      UnpackCellEntity(h, c, t, depth, budget);
    case PathCell(p) =>
      PathRoundTrip(h, p, t, depth, budget);
      UnpackCellEntity(h, c, t, depth, budget);
    case ListCell(items) =>
      var body := CellsBytes(items) + t;
      assert CellBytes(c) + t == Header(LIST, |items|) + body;
      CellsTrip(h, items, t, depth + 1, budget);
      UnpackCellList(h, |items|, body, depth, budget);
  }

  lemma {:induction false} CellsTrip(h: Host, items: seq<Cell>, t: bytes, depth: nat, budget: nat)
    requires GoodCells(h, items) && depth + CellsNesting(items) <= MAX_DECODE_DEPTH
    requires CellsElements(items) <= budget <= MAX_DECODE_ELEMENTS
    ensures UnpackCells(h, |items|, CellsBytes(items) + t, depth, budget)
         == Ok(NormalCells(items), t, budget - CellsElements(items))
    decreases items, 0
  {
    hide UnpackCell, CellBytes, Normal, GoodCell, CellNesting, CellElements;
    if items == [] {
      assert CellsBytes(items) + t == t;
    } else {
      var rest := CellsBytes(items[1..]) + t;
      assert CellsBytes(items) + t == CellBytes(items[0]) + rest;
      CellTrip(h, items[0], rest, depth, budget - 1);
      CellsTrip(h, items[1..], t, depth, budget - 1 - CellElements(items[0]));
    }
  }

  // ---- The normal form is written the same way ---------------------------------------------

  lemma {:induction false} PackAnyDepth(v: Value, d: nat, e: nat)
    requires d + Nesting(v) <= MAX_ENCODE_DEPTH && e + Nesting(v) <= MAX_ENCODE_DEPTH
    ensures Pack(v, d) == Pack(v, e)
    decreases v, 1
  {
    hide IntBytes, FloatBytes, StringBytes, BinaryBytes, PointBytes, TemporalBytes, Header;
    match v
    case List(items) => PackItemsAnyDepth(items, d + 1, e + 1);
    case Map(entries) => PackEntriesAnyDepth(entries, d + 1, e + 1);
    case _ =>
  }

  lemma {:induction false} PackItemsAnyDepth(items: seq<Value>, d: nat, e: nat)
    requires d + ItemsNesting(items) <= MAX_ENCODE_DEPTH && e + ItemsNesting(items) <= MAX_ENCODE_DEPTH
    ensures PackItems(items, d) == PackItems(items, e)
    decreases items, 0
  {
    hide Pack, Nesting;
    if items != [] {
      PackAnyDepth(items[0], d, e);
      PackItemsAnyDepth(items[1..], d, e);
    }
  }

  lemma {:induction false} PackEntriesAnyDepth(entries: seq<Entry>, d: nat, e: nat)
    requires d + EntriesNesting(entries) <= MAX_ENCODE_DEPTH && e + EntriesNesting(entries) <= MAX_ENCODE_DEPTH
    ensures PackEntries(entries, d) == PackEntries(entries, e)
    decreases entries, 0
  {
    hide Pack, Nesting, StringBytes;
    if entries != [] {
      PackAnyDepth(entries[0].value, d, e);
      PackEntriesAnyDepth(entries[1..], d, e);
    }
  }

  lemma {:induction false} NormalValueBytes(v: Value, e: nat)
    requires e + Nesting(v) <= MAX_ENCODE_DEPTH
    ensures CellBytes(NormalValue(v)) == Pack(v, e)
    decreases v, 1
  {
    hide IntBytes, FloatBytes, StringBytes, BinaryBytes, PointBytes, TemporalBytes, Header, PackItems, PackEntries,
      CellsBytes;
    if v.List? {
      NormalValuesBytes(v.items, e + 1);
    } else {
      PackAnyDepth(v, 0, e);
    }
  }

  lemma {:induction false} NormalValuesBytes(items: seq<Value>, e: nat)
    requires e + ItemsNesting(items) <= MAX_ENCODE_DEPTH
    ensures CellsBytes(NormalValues(items)) == PackItems(items, e)
    decreases items, 0
  {
    hide CellBytes, NormalValue, Pack, Nesting;
    if items != [] {
      NormalValueBytes(items[0], e);
      NormalValuesBytes(items[1..], e);
      assert NormalValues(items)[1..] == NormalValues(items[1..]);
    }
  }

  lemma {:induction false} NormalNodesBytes(nodes: seq<Node>)
    ensures NodesBytes(NormalNodes(nodes)) == NodesBytes(nodes)
  {
    if nodes != [] {
      NormalNodesBytes(nodes[1..]);
      assert NormalNodes(nodes)[1..] == NormalNodes(nodes[1..]);
    }
  }

  lemma {:induction false} NormalUnboundsBytes(rels: seq<Relationship>)
    ensures UnboundsBytes(NormalUnbounds(rels)) == UnboundsBytes(rels)
  {
    if rels != [] {
      NormalUnboundsBytes(rels[1..]);
      assert NormalUnbounds(rels)[1..] == NormalUnbounds(rels[1..]);
    }
  }

  lemma {:induction false} NormalBytes(c: Cell)
    requires CellNesting(c) <= MAX_ENCODE_DEPTH
    ensures CellBytes(Normal(c)) == CellBytes(c)
    decreases c, 1
  {
    hide Pack, Header, PropertyBytes, StringBytes, IntBytes, NormalValue, Nesting, NodesBytes, UnboundsBytes,
      CellsBytes, IndexBytes;
    match c
    case Plain(v) => NormalValueBytes(v, 0);
    case PathCell(p) =>
      NormalNodesBytes(p.nodes);
      NormalUnboundsBytes(p.rels);
    case ListCell(items) => NormalCellsBytes(items);
    case _ =>
  }

  lemma {:induction false} NormalCellsBytes(items: seq<Cell>)
    requires CellsNesting(items) <= MAX_ENCODE_DEPTH
    ensures CellsBytes(NormalCells(items)) == CellsBytes(items)
    decreases items, 0
  {
    hide CellBytes, Normal, CellNesting;
    if items != [] {
      NormalBytes(items[0]);
      NormalCellsBytes(items[1..]);
      assert NormalCells(items)[1..] == NormalCells(items[1..]);
    }
  }

  /**
   A cell comes back as its normal form — plain lists as lists of cells, element ids as carried
   strings, path relationships without endpoints — and that form is written with the same bytes.
   */
  lemma ReencodingIsByteStable(h: Host, c: Cell, t: bytes)
    requires GoodCell(h, c) && CellNesting(c) <= MAX_DECODE_DEPTH && CellElements(c) <= MAX_DECODE_ELEMENTS
    ensures var r := UnpackCell(h, CellBytes(c) + t, 0, MAX_DECODE_ELEMENTS);
            r.Ok? && r.value == Normal(c) && r.rest == t && CellBytes(r.value) == CellBytes(c)
  {
    hide UnpackCell, CellBytes, Normal, GoodCell, CellNesting, CellElements;
    CellTrip(h, c, t, 0, MAX_DECODE_ELEMENTS);
    NormalBytes(c);
  }
}
