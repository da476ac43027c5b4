/** The graph-entity encoders and decoders, driving the packer and the unpacker. */
module CellCursors {
  import opened Bytes
  import opened Wrappers
  import opened Values
  import opened Encoder
  import opened Decoder
  import opened Cells
  import opened Packers
  import opened Unpackers
  import Entries

  // ---- Packing -----------------------------------------------------------------------------

  method PackProperties(p: Packer, properties: seq<Entry>)
    modifies p
    ensures p.buf == old(p.buf) + PropertyBytes(properties)
    ensures p.overflow == First(old(p.overflow), OverlongProperties(properties))
  {
    hide Header, PackEntries, OverlongEntries;
    p.WriteCollectionHeader(MAP, |properties|);
    p.PackEntriesAt(properties, 0);
  }

  method PackLabels(p: Packer, labels: seq<bytes>)
    modifies p
    ensures p.buf == old(p.buf) + Header(LIST, |labels|) + LabelBytes(labels)
    ensures p.overflow == First(old(p.overflow), First(Refused(|labels|), OverlongLabels(labels)))
  {
    hide Header, StringBytes;
    p.WriteCollectionHeader(LIST, |labels|);
    ghost var start, poison := p.buf, p.overflow;
    for i := 0 to |labels|
      invariant p.buf + LabelBytes(labels[i..]) == start + LabelBytes(labels)
      invariant First(p.overflow, OverlongLabels(labels[i..])) == First(poison, OverlongLabels(labels))
    {
      ghost var before := p.buf;
      p.WriteString(labels[i]);
      assert labels[i..][1..] == labels[i + 1..];
      assert p.buf + LabelBytes(labels[i + 1..]) == before + LabelBytes(labels[i..]);
    }
    assert p.buf + LabelBytes(labels[|labels|..]) == p.buf;
  }

  method PackNode(p: Packer, n: Node)
    modifies p
    ensures p.buf == old(p.buf) + NodeBytes(n)
    ensures p.overflow == First(old(p.overflow), OverlongNode(n))
  {
    hide StructHeader, IntBytes, Header, LabelBytes, PropertyBytes, StringBytes, OwnId, OverlongLabels, OverlongProperties;
    var _ := p.WriteStructHeader(NODE, 4);
    p.WriteInt(n.id);
    PackLabels(p, n.labels);
    PackProperties(p, n.properties);
    p.WriteString(OwnId(n.ids, n.id));
  }

  method PackRelationship(p: Packer, r: Relationship)
    modifies p
    ensures p.buf == old(p.buf) + RelationshipBytes(r)
    ensures p.overflow == First(old(p.overflow), OverlongRelationship(r))
  {
    hide StructHeader, IntBytes, PropertyBytes, StringBytes, OwnId, StartId, EndId, OverlongProperties;
    var _ := p.WriteStructHeader(RELATIONSHIP, 8);
    p.WriteInt(r.id);
    p.WriteInt(r.start);
    p.WriteInt(r.end);
    p.WriteString(r.relType);
    PackProperties(p, r.properties);
    p.WriteString(OwnId(r.ids, r.id));
    p.WriteString(StartId(r.ids, r.start));
    p.WriteString(EndId(r.ids, r.end));
  }

  method PackUnbound(p: Packer, r: Relationship)
    modifies p
    ensures p.buf == old(p.buf) + UnboundBytes(r)
    ensures p.overflow == First(old(p.overflow), OverlongUnbound(r))
  {
    hide StructHeader, IntBytes, PropertyBytes, StringBytes, OwnId, OverlongProperties;
    var _ := p.WriteStructHeader(UNBOUND_RELATIONSHIP, 4);
    p.WriteInt(r.id);
    p.WriteString(r.relType);
    PackProperties(p, r.properties);
    p.WriteString(OwnId(r.ids, r.id));
  }

  method PackNodes(p: Packer, nodes: seq<Node>)
    modifies p
    ensures p.buf == old(p.buf) + NodesBytes(nodes)
    ensures p.overflow == First(old(p.overflow), OverlongNodes(nodes))
  {
    hide NodeBytes, OverlongNode;
    for i := 0 to |nodes|
      invariant p.buf + NodesBytes(nodes[i..]) == old(p.buf) + NodesBytes(nodes)
      invariant First(p.overflow, OverlongNodes(nodes[i..])) == First(old(p.overflow), OverlongNodes(nodes))
    {
      ghost var before := p.buf;
      PackNode(p, nodes[i]);
      assert nodes[i..][1..] == nodes[i + 1..];
      assert p.buf + NodesBytes(nodes[i + 1..]) == before + NodesBytes(nodes[i..]);
    }
    assert p.buf + NodesBytes(nodes[|nodes|..]) == p.buf;
  }

  method PackUnbounds(p: Packer, rels: seq<Relationship>)
    modifies p
    ensures p.buf == old(p.buf) + UnboundsBytes(rels)
    ensures p.overflow == First(old(p.overflow), OverlongUnbounds(rels))
  {
    hide UnboundBytes, OverlongUnbound;
    for i := 0 to |rels|
      invariant p.buf + UnboundsBytes(rels[i..]) == old(p.buf) + UnboundsBytes(rels)
      invariant First(p.overflow, OverlongUnbounds(rels[i..])) == First(old(p.overflow), OverlongUnbounds(rels))
    {
      ghost var before := p.buf;
      PackUnbound(p, rels[i]);
      assert rels[i..][1..] == rels[i + 1..];
      assert p.buf + UnboundsBytes(rels[i + 1..]) == before + UnboundsBytes(rels[i..]);
    }
    assert p.buf + UnboundsBytes(rels[|rels|..]) == p.buf;
  }

  method PackIndices(p: Packer, indices: seq<i64>)
    modifies p`buf
    ensures p.buf == old(p.buf) + IndexBytes(indices)
  {
    hide IntBytes;
    for i := 0 to |indices|
      invariant p.buf + IndexBytes(indices[i..]) == old(p.buf) + IndexBytes(indices)
    {
      ghost var before := p.buf;
      p.WriteInt(indices[i]);
      assert indices[i..][1..] == indices[i + 1..];
      assert p.buf + IndexBytes(indices[i + 1..]) == before + IndexBytes(indices[i..]);
    }
    assert p.buf + IndexBytes(indices[|indices|..]) == p.buf;
  }

  method PackPath(p: Packer, path: Path)
    modifies p
    ensures p.buf == old(p.buf) + PathBytes(path)
    ensures p.overflow == First(old(p.overflow), OverlongPath(path))
  {
    hide StructHeader, Header, NodesBytes, UnboundsBytes, IndexBytes, OverlongNodes, OverlongUnbounds;
    var _ := p.WriteStructHeader(PATH, 3);
    p.WriteCollectionHeader(LIST, |path.nodes|);
    PackNodes(p, path.nodes);
    p.WriteCollectionHeader(LIST, |path.rels|);
    PackUnbounds(p, path.rels);
    p.WriteCollectionHeader(LIST, |path.indices|);
    PackIndices(p, path.indices);
  }

  method PackCell(p: Packer, c: Cell)
    modifies p
    ensures p.buf == old(p.buf) + CellBytes(c)
    ensures p.overflow == First(old(p.overflow), OverlongCell(c))
    decreases c, 1
  {
    hide Pack, NodeBytes, RelationshipBytes, PathBytes, Header, CellsBytes, Overlong, OverlongNode,
      OverlongRelationship, OverlongPath, OverlongCells;
    match c
    case Plain(v) => p.PackValue(v);
    case NodeCell(n) => PackNode(p, n);
    case RelationshipCell(r) => PackRelationship(p, r);
    case PathCell(path) => PackPath(p, path);
    case ListCell(items) =>
      p.WriteCollectionHeader(LIST, |items|);
      PackCells(p, items);
  }

  method PackCells(p: Packer, items: seq<Cell>)
    modifies p
    ensures p.buf == old(p.buf) + CellsBytes(items)
    ensures p.overflow == First(old(p.overflow), OverlongCells(items))
    decreases items, 0
  {
    hide CellBytes, OverlongCell;
    for i := 0 to |items|
      invariant p.buf + CellsBytes(items[i..]) == old(p.buf) + CellsBytes(items)
      invariant First(p.overflow, OverlongCells(items[i..])) == First(old(p.overflow), OverlongCells(items))
    {
      ghost var before := p.buf;
      PackCell(p, items[i]);
      assert items[i..][1..] == items[i + 1..];
      assert p.buf + CellsBytes(items[i + 1..]) == before + CellsBytes(items[i..]);
    }
    assert p.buf + CellsBytes(items[|items|..]) == p.buf;
  }

  // ---- Unpacking ---------------------------------------------------------------------------

  method ReadFieldCount(u: Unpacker, want: nat) returns (r: Result<byte, DecodeError>)
    requires u.InBounds()
    modifies u`pos
    ensures
      var head := ReadStructHeader(old(u.Rest()));
      u.Follows(r, if head.Bad? then Bad(head.error) else ExpectFields(head.value, want, head.rest))
  {
    hide ReadStructHeader;
    var head :- u.ReadStructureHeader();
    r := if head.1 == want then Success(head.0) else Failure(WrongFieldCount(head.0, head.1));
  }

  method ReadProperties(u: Unpacker) returns (r: Result<seq<Entry>, DecodeError>)
    requires u.InBounds() && u.depth <= MAX_DECODE_DEPTH
    modifies u
    ensures u.Yields(r, UnpackProperties(u.host, old(u.Rest()), old(u.depth), old(u.elementsRemaining)), old(u.depth))
  {
    hide ReadHeader, UnpackPairs, Entries.Dedup;
    var n :- u.ReadCollectionHeader(MAP);
    var _ :- u.EnterNested();
    var entries :- u.UnpackMapEntries(n);
    u.LeaveNested();
    r := Success(entries);
  }

  method ReadLabels(u: Unpacker, n: nat) returns (r: Result<seq<bytes>, DecodeError>)
    requires u.InBounds()
    modifies u
    ensures u.depth == old(u.depth)
    ensures u.Yields(r, UnpackLabels(n, old(u.Rest()), old(u.elementsRemaining)), old(u.depth))
  {
    hide ReadString;
    var labels: seq<bytes> := [];
    ghost var spec := UnpackLabels(n, u.Rest(), u.elementsRemaining);
    PrependNothing(spec);
    for i := 0 to n
      invariant u.InBounds() && u.depth == old(u.depth)
      invariant spec == Prepend(labels, UnpackLabels(n - i, u.Rest(), u.elementsRemaining))
    {
      var _ :- u.ChargeElement();
      var text :- u.ReadText();
      PrependOne(labels, text, UnpackLabels(n - i - 1, u.Rest(), u.elementsRemaining));
      labels := labels + [text];
    }
    assert labels + [] == labels;
    r := Success(labels);
  }

  method ReadNode(u: Unpacker) returns (r: Result<Node, DecodeError>)
    requires u.InBounds() && u.depth <= MAX_DECODE_DEPTH
    modifies u
    ensures u.Yields(r, UnpackNode(u.host, old(u.Rest()), old(u.depth), old(u.elementsRemaining)), old(u.depth))
  {
    hide ReadStructHeader, ReadInt, ReadHeader, UnpackLabels, UnpackProperties, ReadString;
    var _ :- ReadFieldCount(u, 4);
    var id :- u.ReadInteger();
    var n :- u.ReadCollectionHeader(LIST);
    var labels :- ReadLabels(u, n);
    var properties :- ReadProperties(u);
    var own :- u.ReadText();
    r := Success(Node(id, labels, properties, Some(ElementIds(own, [], []))));
  }

  method ReadRelationship(u: Unpacker) returns (r: Result<Relationship, DecodeError>)
    requires u.InBounds() && u.depth <= MAX_DECODE_DEPTH
    modifies u
    ensures u.Yields(r, UnpackRelationship(u.host, old(u.Rest()), old(u.depth), old(u.elementsRemaining)), old(u.depth))
  {
    hide ReadStructHeader, ReadInt, UnpackProperties, ReadString;
    var _ :- ReadFieldCount(u, 8);
    var id :- u.ReadInteger();
    var start :- u.ReadInteger();
    var end :- u.ReadInteger();
    var relType :- u.ReadText();
    var properties :- ReadProperties(u);
    var own :- u.ReadText();
    var startId :- u.ReadText();
    var endId :- u.ReadText();
    r := Success(Relationship(id, start, end, relType, properties, Some(ElementIds(own, startId, endId))));
  }

  method ReadUnbound(u: Unpacker) returns (r: Result<Relationship, DecodeError>)
    requires u.InBounds() && u.depth <= MAX_DECODE_DEPTH
    modifies u
    ensures u.Yields(r, UnpackUnbound(u.host, old(u.Rest()), old(u.depth), old(u.elementsRemaining)), old(u.depth))
  {
    hide ReadStructHeader, ReadInt, UnpackProperties, ReadString;
    var _ :- ReadFieldCount(u, 4);
    var id :- u.ReadInteger();
    var relType :- u.ReadText();
    var properties :- ReadProperties(u);
    var own :- u.ReadText();
    r := Success(Relationship(id, 0, 0, relType, properties, Some(ElementIds(own, [], []))));
  }

  method ReadNodes(u: Unpacker, n: nat) returns (r: Result<seq<Node>, DecodeError>)
    requires u.InBounds() && u.depth <= MAX_DECODE_DEPTH
    modifies u
    ensures u.Yields(r, UnpackNodes(u.host, n, old(u.Rest()), old(u.depth), old(u.elementsRemaining)), old(u.depth))
  {
    hide UnpackNode;
    var nodes: seq<Node> := [];
    ghost var spec := UnpackNodes(u.host, n, u.Rest(), u.depth, u.elementsRemaining);
    PrependNothing(spec);
    for i := 0 to n
      invariant u.InBounds() && u.depth == old(u.depth)
      invariant spec == Prepend(nodes, UnpackNodes(u.host, n - i, u.Rest(), u.depth, u.elementsRemaining))
    {
      var _ :- u.ChargeElement();
      var node :- ReadNode(u);
      PrependOne(nodes, node, UnpackNodes(u.host, n - i - 1, u.Rest(), u.depth, u.elementsRemaining));
      nodes := nodes + [node];
    }
    assert nodes + [] == nodes;
    r := Success(nodes);
  }

  method ReadUnbounds(u: Unpacker, n: nat) returns (r: Result<seq<Relationship>, DecodeError>)
    requires u.InBounds() && u.depth <= MAX_DECODE_DEPTH
    modifies u
    ensures u.Yields(r, UnpackUnbounds(u.host, n, old(u.Rest()), old(u.depth), old(u.elementsRemaining)), old(u.depth))
  {
    hide UnpackUnbound;
    var rels: seq<Relationship> := [];
    ghost var spec := UnpackUnbounds(u.host, n, u.Rest(), u.depth, u.elementsRemaining);
    PrependNothing(spec);
    for i := 0 to n
      invariant u.InBounds() && u.depth == old(u.depth)
      invariant spec == Prepend(rels, UnpackUnbounds(u.host, n - i, u.Rest(), u.depth, u.elementsRemaining))
    {
      var _ :- u.ChargeElement();
      var rel :- ReadUnbound(u);
      PrependOne(rels, rel, UnpackUnbounds(u.host, n - i - 1, u.Rest(), u.depth, u.elementsRemaining));
      rels := rels + [rel];
    }
    assert rels + [] == rels;
    r := Success(rels);
  }

  method ReadIndices(u: Unpacker, n: nat) returns (r: Result<seq<i64>, DecodeError>)
    requires u.InBounds()
    modifies u
    ensures u.Yields(r, UnpackIndices(n, old(u.Rest()), old(u.elementsRemaining)), old(u.depth))
  {
    hide ReadInt;
    var indices: seq<i64> := [];
    ghost var spec := UnpackIndices(n, u.Rest(), u.elementsRemaining);
    PrependNothing(spec);
    for i := 0 to n
      invariant u.InBounds() && u.depth == old(u.depth)
      invariant spec == Prepend(indices, UnpackIndices(n - i, u.Rest(), u.elementsRemaining))
    {
      var _ :- u.ChargeElement();
      var k :- u.ReadInteger();
      PrependOne(indices, k, UnpackIndices(n - i - 1, u.Rest(), u.elementsRemaining));
      indices := indices + [k];
    }
    assert indices + [] == indices;
    r := Success(indices);
  }

  method ReadPath(u: Unpacker) returns (r: Result<Path, DecodeError>)
    requires u.InBounds() && u.depth <= MAX_DECODE_DEPTH
    modifies u
    ensures u.Yields(r, UnpackPath(u.host, old(u.Rest()), old(u.depth), old(u.elementsRemaining)), old(u.depth))
  {
    hide ReadStructHeader, ReadHeader, UnpackNodes, UnpackUnbounds, UnpackIndices;
    var _ :- ReadFieldCount(u, 3);
    var n :- u.ReadCollectionHeader(LIST);
    var nodes :- ReadNodes(u, n);
    var m :- u.ReadCollectionHeader(LIST);
    var rels :- ReadUnbounds(u, m);
    var k :- u.ReadCollectionHeader(LIST);
    var indices :- ReadIndices(u, k);
    r := Success(Path(nodes, rels, indices));
  }

  method ReadCell(u: Unpacker) returns (r: Result<Cell, DecodeError>)
    requires u.InBounds() && u.depth <= MAX_DECODE_DEPTH
    modifies u
    ensures u.Yields(r, UnpackCell(u.host, old(u.Rest()), old(u.depth), old(u.elementsRemaining)), old(u.depth))
    decreases |u.buf| - u.pos, 0
  {
    hide ReadHeader, UnpackNode, UnpackRelationship, UnpackPath, UnpackCells, Unpack;
    if u.pos == |u.buf| {
      return Failure(UnexpectedEnd);
    }
    var m := u.buf[u.pos];
    if IsStruct(m) {
      if u.pos + 1 == |u.buf| {
        return Failure(Truncated);
      }
      var tag := u.buf[u.pos + 1];
      if tag == NODE {
        var n :- ReadNode(u);
        return Success(NodeCell(n));
      } else if tag == RELATIONSHIP {
        var rel :- ReadRelationship(u);
        return Success(RelationshipCell(rel));
      } else if tag == PATH {
        var p :- ReadPath(u);
        return Success(PathCell(p));
      }
    } else if InFamily(LIST, m) {
      var n :- u.ReadCollectionHeader(LIST);
      var _ :- u.EnterNested();
      var items :- ReadCells(u, n);
      u.LeaveNested();
      return Success(ListCell(items));
    }
    var v :- u.UnpackValue();
    r := Success(Plain(v));
  }

  method ReadCells(u: Unpacker, n: nat) returns (r: Result<seq<Cell>, DecodeError>)
    requires u.InBounds() && u.depth <= MAX_DECODE_DEPTH
    modifies u
    ensures u.Yields(r, UnpackCells(u.host, n, old(u.Rest()), old(u.depth), old(u.elementsRemaining)), old(u.depth))
    decreases |u.buf| - u.pos, 1
  {
    hide UnpackCell;
    var items: seq<Cell> := [];
    ghost var spec := UnpackCells(u.host, n, u.Rest(), u.depth, u.elementsRemaining);
    PrependNothing(spec);
    for i := 0 to n
      invariant u.InBounds() && u.depth == old(u.depth) && u.pos >= old(u.pos) && (i > 0 ==> u.pos > old(u.pos))
      invariant spec == Prepend(items, UnpackCells(u.host, n - i, u.Rest(), u.depth, u.elementsRemaining))
    {
      var _ :- u.ChargeElement();
      var c :- ReadCell(u);
      PrependOne(items, c, UnpackCells(u.host, n - i - 1, u.Rest(), u.depth, u.elementsRemaining));
      items := items + [c];
    }
    assert items + [] == items;
    r := Success(items);
  }
}
