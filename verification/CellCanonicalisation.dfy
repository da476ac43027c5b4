/** Whatever bytes are accepted as a cell, the cell is in normal form and within every bound. */
module CellCanonicalisation {
  import opened Bytes
  import opened Values
  import opened Encoder
  import opened Decoder
  import opened Cells
  import Entries
  import Utf8
  import Canonicalisation
  import CellRoundTrip

  lemma PropertiesSound(h: Host, s: bytes, depth: nat, budget: nat)
    requires ValidHost(h) && depth <= MAX_DECODE_DEPTH && UnpackProperties(h, s, depth, budget).Ok?
    ensures var (properties, rest, left) := UnpackProperties(h, s, depth, budget).Extract();
            && CanonicalProperties(h, properties) && (|s| <= I32_MAX ==> FitsProperties(properties))
            && depth + PropertiesNesting(properties) <= MAX_DECODE_DEPTH
            && EntriesElements(properties) <= budget - left
            && EntriesElements(properties) < |s| - |rest|
  {
    hide ReadHeader, UnpackPairs, CanonicalEntries, FitsEntries, EntriesNesting, EntriesElements;
    var head := ReadHeader(MAP, s);
    Canonicalisation.PairsSound(h, head.value, head.rest, depth + 1, budget);
    var pairs := UnpackPairs(h, head.value, head.rest, depth + 1, budget).value;
    EmptyEntries(h);
    Canonicalisation.FoldKeeps(h, [], pairs);
  }

  lemma EmptyEntries(h: Host)
    ensures CanonicalEntries(h, []) && FitsEntries([]) && EntriesNesting([]) == 0 && EntriesElements([]) == 0
  {
  }

  lemma {:induction false} LabelsSound(n: nat, s: bytes, budget: nat)
    requires UnpackLabels(n, s, budget).Ok?
    ensures var (labels, rest, left) := UnpackLabels(n, s, budget).Extract();
            (|s| <= I32_MAX ==> Texts(labels)) && |labels| == budget - left && |labels| <= |s| - |rest|
  {
    hide ReadString, Utf8.Valid;
    if n > 0 {
      LabelsSound(n - 1, ReadString(s).rest, budget - 1);
    }
  }

  lemma NodeSound(h: Host, s: bytes, depth: nat, budget: nat)
    requires ValidHost(h) && depth <= MAX_DECODE_DEPTH && UnpackNode(h, s, depth, budget).Ok?
    ensures var (n, rest, left) := UnpackNode(h, s, depth, budget).Extract();
            && (|s| <= I32_MAX ==> GoodNode(h, n)) && NormalNode(n) == n
            && depth + PropertiesNesting(n.properties) <= MAX_DECODE_DEPTH
            && NodeElements(n) <= budget - left
            && NodeElements(n) < |s| - |rest|
  {
    hide ReadStructHeader, ReadInt, ReadHeader, ReadString, UnpackLabels, UnpackProperties, Utf8.Valid,
      CanonicalProperties, FitsProperties, Texts, PropertiesNesting, EntriesElements;
    var t2 := ReadInt(ReadStructHeader(s).rest).rest;
    var head := ReadHeader(LIST, t2);
    LabelsSound(head.value, head.rest, budget);
    var (_, t4, b) := UnpackLabels(head.value, head.rest, budget).Extract();
    PropertiesSound(h, t4, depth, b);
  }

  lemma RelationshipSound(h: Host, s: bytes, depth: nat, budget: nat)
    requires ValidHost(h) && depth <= MAX_DECODE_DEPTH && UnpackRelationship(h, s, depth, budget).Ok?
    ensures var (r, rest, left) := UnpackRelationship(h, s, depth, budget).Extract();
            && (|s| <= I32_MAX ==> GoodRelationship(h, r)) && NormalRelationship(r) == r
            && depth + PropertiesNesting(r.properties) <= MAX_DECODE_DEPTH
            && EntriesElements(r.properties) <= budget - left
            && EntriesElements(r.properties) < |s| - |rest|
  {
    hide ReadStructHeader, ReadInt, ReadString, UnpackProperties, Utf8.Valid, CanonicalProperties, FitsProperties,
      PropertiesNesting, EntriesElements;
    var t4 := ReadInt(ReadInt(ReadInt(ReadStructHeader(s).rest).rest).rest).rest;
    PropertiesSound(h, ReadString(t4).rest, depth, budget);
  }

  lemma UnboundSound(h: Host, s: bytes, depth: nat, budget: nat)
    requires ValidHost(h) && depth <= MAX_DECODE_DEPTH && UnpackUnbound(h, s, depth, budget).Ok?
    ensures var (r, rest, left) := UnpackUnbound(h, s, depth, budget).Extract();
            && (|s| <= I32_MAX ==> GoodUnbound(h, r)) && NormalUnbound(r) == r
            && depth + PropertiesNesting(r.properties) <= MAX_DECODE_DEPTH
            && EntriesElements(r.properties) <= budget - left
            && EntriesElements(r.properties) < |s| - |rest|
  {
    hide ReadStructHeader, ReadInt, ReadString, UnpackProperties, Utf8.Valid, CanonicalProperties, FitsProperties,
      PropertiesNesting, EntriesElements;
    var t3 := ReadString(ReadInt(ReadStructHeader(s).rest).rest).rest;
    PropertiesSound(h, t3, depth, budget);
  }

  lemma {:induction false} NodesSound(h: Host, n: nat, s: bytes, depth: nat, budget: nat)
    requires ValidHost(h) && depth <= MAX_DECODE_DEPTH && UnpackNodes(h, n, s, depth, budget).Ok?
    ensures var (nodes, rest, left) := UnpackNodes(h, n, s, depth, budget).Extract();
            && (|s| <= I32_MAX ==> forall i :: 0 <= i < |nodes| ==> GoodNode(h, nodes[i])) && NormalNodes(nodes) == nodes
            && depth + NodesNesting(nodes) <= MAX_DECODE_DEPTH
            && NodesElements(nodes) <= budget - left
            && NodesElements(nodes) <= |s| - |rest|
    decreases |s|
  {
    hide UnpackNode, GoodNode, NormalNode, PropertiesNesting, NodeElements;
    if n > 0 {
      NodeSound(h, s, depth, budget - 1);
      var (_, t, b) := UnpackNode(h, s, depth, budget - 1).Extract();
      NodesSound(h, n - 1, t, depth, b);
      var nodes := UnpackNodes(h, n, s, depth, budget).value;
      assert nodes[1..] == UnpackNodes(h, n - 1, t, depth, b).value;
    }
  }

  lemma {:induction false} UnboundsSound(h: Host, n: nat, s: bytes, depth: nat, budget: nat)
    requires ValidHost(h) && depth <= MAX_DECODE_DEPTH && UnpackUnbounds(h, n, s, depth, budget).Ok?
    ensures var (rels, rest, left) := UnpackUnbounds(h, n, s, depth, budget).Extract();
            && (|s| <= I32_MAX ==> forall i :: 0 <= i < |rels| ==> GoodUnbound(h, rels[i])) && NormalUnbounds(rels) == rels
            && depth + RelsNesting(rels) <= MAX_DECODE_DEPTH
            && RelsElements(rels) <= budget - left
            && RelsElements(rels) <= |s| - |rest|
    decreases |s|
  {
    hide UnpackUnbound, GoodUnbound, NormalUnbound, PropertiesNesting, EntriesElements;
    if n > 0 {
      UnboundSound(h, s, depth, budget - 1);
      var (_, t, b) := UnpackUnbound(h, s, depth, budget - 1).Extract();
      UnboundsSound(h, n - 1, t, depth, b);
      var rels := UnpackUnbounds(h, n, s, depth, budget).value;
      assert rels[1..] == UnpackUnbounds(h, n - 1, t, depth, b).value;
    }
  }

  lemma {:induction false} IndicesSound(n: nat, s: bytes, budget: nat)
    requires UnpackIndices(n, s, budget).Ok?
    ensures var (indices, rest, left) := UnpackIndices(n, s, budget).Extract();
            |indices| == budget - left && |indices| <= |s| - |rest|
  {
    hide ReadInt;
    if n > 0 {
      IndicesSound(n - 1, ReadInt(s).rest, budget - 1);
    }
  }

  lemma PathSound(h: Host, s: bytes, depth: nat, budget: nat)
    requires ValidHost(h) && depth <= MAX_DECODE_DEPTH && UnpackPath(h, s, depth, budget).Ok?
    ensures var (p, rest, left) := UnpackPath(h, s, depth, budget).Extract();
            && (|s| <= I32_MAX ==> GoodPath(h, p)) && Normal(PathCell(p)) == PathCell(p)
            && depth + CellNesting(PathCell(p)) <= MAX_DECODE_DEPTH
            && CellElements(PathCell(p)) <= budget - left
            && CellElements(PathCell(p)) < |s| - |rest|
  {
    hide ReadStructHeader, ReadHeader, UnpackNodes, UnpackUnbounds, UnpackIndices, GoodNode, GoodUnbound, NormalNodes,
      NormalUnbounds, NodesNesting, RelsNesting, NodesElements, RelsElements;
    var nodes := ReadHeader(LIST, ReadStructHeader(s).rest);
    NodesSound(h, nodes.value, nodes.rest, depth, budget);
    var (_, t3, b) := UnpackNodes(h, nodes.value, nodes.rest, depth, budget).Extract();
    var rels := ReadHeader(LIST, t3);
    UnboundsSound(h, rels.value, rels.rest, depth, b);
    var (_, t5, b') := UnpackUnbounds(h, rels.value, rels.rest, depth, b).Extract();
    var indices := ReadHeader(LIST, t5);
    IndicesSound(indices.value, indices.rest, b');
  }

  lemma {:induction false} CellSound(h: Host, s: bytes, depth: nat, budget: nat)
    requires ValidHost(h) && depth <= MAX_DECODE_DEPTH && UnpackCell(h, s, depth, budget).Ok?
    ensures var (c, rest, left) := UnpackCell(h, s, depth, budget).Extract();
            && (|s| <= I32_MAX ==> GoodCell(h, c)) && Normal(c) == c
            && depth + CellNesting(c) <= MAX_DECODE_DEPTH
            && CellElements(c) <= budget - left
            && CellElements(c) < |s| - |rest|
    decreases |s|, 0
  {
    hide ReadHeader, UnpackNode, UnpackRelationship, UnpackPath, UnpackCells, Unpack, GoodNode, GoodRelationship,
      GoodPath, PropertiesNesting, Canonical, Fits, Nesting, Elements, NormalNode, NormalRelationship,
      NodeElements, EntriesElements;
    if IsStruct(s[0]) && s[1] == NODE {
      NodeSound(h, s, depth, budget);
    } else if IsStruct(s[0]) && s[1] == RELATIONSHIP {
      RelationshipSound(h, s, depth, budget);
    } else if IsStruct(s[0]) && s[1] == PATH {
      PathSound(h, s, depth, budget);
    } else if InFamily(LIST, s[0]) {
      var head := ReadHeader(LIST, s);
      CellsSound(h, head.value, head.rest, depth + 1, budget);
    } else {
      Canonicalisation.DecodedSound(h, s, depth, budget);
      NotAList(h, s, depth, budget);
    }
  }

  lemma NotAList(h: Host, s: bytes, depth: nat, budget: nat)
    requires depth <= MAX_DECODE_DEPTH && Unpack(h, s, depth, budget).Ok? && !InFamily(LIST, s[0])
    ensures !Unpack(h, s, depth, budget).value.List?
  {
    hide UnpackPairs, ReadTemporal, UnpackCoords, ReadInt, ReadBinary, ReadString, Entries.Dedup;
    match KindOf(s[0])
    case StructKind =>
      var head := ReadStructHeader(s);
      NotAListStructure(h, head.value.0, head.value.1, head.rest, depth + 1, budget);
    case _ =>
  }

  lemma NotAListStructure(h: Host, tag: byte, fields: nat, s: bytes, depth: nat, budget: nat)
    requires depth <= MAX_DECODE_DEPTH && UnpackStructure(h, tag, fields, s, depth, budget).Ok?
    ensures !UnpackStructure(h, tag, fields, s, depth, budget).value.List?
  {
  }

  lemma {:induction false} CellsSound(h: Host, n: nat, s: bytes, depth: nat, budget: nat)
    requires ValidHost(h) && depth <= MAX_DECODE_DEPTH && UnpackCells(h, n, s, depth, budget).Ok?
    ensures var (items, rest, left) := UnpackCells(h, n, s, depth, budget).Extract();
            && (|s| <= I32_MAX ==> GoodCells(h, items)) && NormalCells(items) == items
            && depth + CellsNesting(items) <= MAX_DECODE_DEPTH
            && CellsElements(items) <= budget - left
            && CellsElements(items) <= |s| - |rest|
    decreases |s|, 1
  {
    hide UnpackCell, GoodCell, Normal, CellNesting, CellElements;
    if n > 0 {
      CellSound(h, s, depth, budget - 1);
      var (_, t, b) := UnpackCell(h, s, depth, budget - 1).Extract();
      CellsSound(h, n - 1, t, depth, b);
      var items := UnpackCells(h, n, s, depth, budget).value;
      assert items[1..] == UnpackCells(h, n - 1, t, depth, b).value;
    }
  }

  /** An accepted cell comes back from its own encoding unchanged. */
  lemma CellCanonicalisedOnce(h: Host, s: bytes, t: bytes)
    requires ValidHost(h) && |s| <= I32_MAX && UnpackCell(h, s, 0, MAX_DECODE_ELEMENTS).Ok?
    ensures var c := UnpackCell(h, s, 0, MAX_DECODE_ELEMENTS).value;
            var r := UnpackCell(h, CellBytes(c) + t, 0, MAX_DECODE_ELEMENTS);
            r.Ok? && r.value == c && r.rest == t
  {
    hide UnpackCell, CellBytes, Normal, GoodCell, CellNesting, CellElements;
    CellSound(h, s, 0, MAX_DECODE_ELEMENTS);
    CellRoundTrip.CellTrip(h, UnpackCell(h, s, 0, MAX_DECODE_ELEMENTS).value, t, 0, MAX_DECODE_ELEMENTS);
  }

  // ---- Good cells are never refused by the encoder -----------------------------------------

  lemma PropertiesAccepted(properties: seq<Entry>)
    requires FitsProperties(properties) && EntriesNesting(properties) <= MAX_ENCODE_DEPTH
    ensures OverlongProperties(properties).None?
  {
    hide FitsEntries, EntriesNesting, OverlongEntries;
    Canonicalisation.OverlongEntriesIffFit(properties, 0);
  }

  lemma {:induction false} LabelsAccepted(labels: seq<bytes>)
    requires Texts(labels)
    ensures OverlongLabels(labels).None?
  {
    hide Utf8.Valid;
    if labels != [] {
      assert Text(labels[0]);
      LabelsAccepted(labels[1..]);
    }
  }

  lemma NodeAccepted(h: Host, n: Node)
    requires GoodNode(h, n) && PropertiesNesting(n.properties) <= MAX_ENCODE_DEPTH
    ensures OverlongNode(n).None?
  {
    hide CanonicalProperties, FitsProperties, OverlongProperties, OwnId, Utf8.Valid, OverlongLabels;
    LabelsAccepted(n.labels);
    PropertiesAccepted(n.properties);
    CellRoundTrip.OwnIdIsText(n.ids, n.id);
  }

  lemma UnboundAccepted(h: Host, r: Relationship)
    requires GoodUnbound(h, r) && PropertiesNesting(r.properties) <= MAX_ENCODE_DEPTH
    ensures OverlongUnbound(r).None?
  {
    hide CanonicalProperties, FitsProperties, OverlongProperties, OwnId, Utf8.Valid;
    PropertiesAccepted(r.properties);
    CellRoundTrip.OwnIdIsText(r.ids, r.id);
  }

  lemma {:induction false} NodesAccepted(h: Host, nodes: seq<Node>)
    requires forall i :: 0 <= i < |nodes| ==> GoodNode(h, nodes[i])
    requires NodesNesting(nodes) <= MAX_ENCODE_DEPTH
    ensures OverlongNodes(nodes).None?
  {
    hide GoodNode, OverlongNode, PropertiesNesting;
    if nodes != [] {
      NodeAccepted(h, nodes[0]);
      NodesAccepted(h, nodes[1..]);
    }
  }

  lemma {:induction false} UnboundsAccepted(h: Host, rels: seq<Relationship>)
    requires forall i :: 0 <= i < |rels| ==> GoodUnbound(h, rels[i])
    requires RelsNesting(rels) <= MAX_ENCODE_DEPTH
    ensures OverlongUnbounds(rels).None?
  {
    hide GoodUnbound, OverlongUnbound, PropertiesNesting;
    if rels != [] {
      UnboundAccepted(h, rels[0]);
      UnboundsAccepted(h, rels[1..]);
    }
  }

  lemma {:induction false} CellAccepted(h: Host, c: Cell)
    requires GoodCell(h, c) && CellNesting(c) <= MAX_ENCODE_DEPTH
    ensures OverlongCell(c).None?
    decreases c, 1
  {
    hide GoodNode, GoodUnbound, OverlongNode, OverlongUnbound, PropertiesNesting, Canonical, Fits, Nesting, Overlong,
      NodesNesting, RelsNesting, Utf8.Valid;
    match c
    case Plain(v) => Canonicalisation.OverlongIffFits(v, 0);
    case NodeCell(n) => NodeAccepted(h, n);
    case RelationshipCell(r) =>
      UnboundAccepted(h, r);
      CellRoundTrip.EndIdsAreText(r.ids, r.start, r.end);
    case PathCell(p) =>
      NodesAccepted(h, p.nodes);
      UnboundsAccepted(h, p.rels);
    case ListCell(items) => CellsAccepted(h, items);
  }

  lemma {:induction false} CellsAccepted(h: Host, items: seq<Cell>)
    requires GoodCells(h, items) && CellsNesting(items) <= MAX_ENCODE_DEPTH
    ensures OverlongCells(items).None?
    decreases items, 0
  {
    hide GoodCell, OverlongCell, CellNesting;
    if items != [] {
      CellAccepted(h, items[0]);
      CellsAccepted(h, items[1..]);
    }
  }
}
