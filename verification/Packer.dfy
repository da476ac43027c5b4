/** The encoder's cursor: a growing buffer and the poison an over-long collection leaves in it. */
module Packers {
  import opened Bytes
  import opened Wrappers
  import opened Values
  import opened Encoder

  class Packer {
    var buf: bytes
    var overflow: Option<nat>

    constructor ()
      ensures buf == [] && overflow == None
    {
      buf, overflow := [], None;
    }

    method Reset()
      modifies this
      ensures buf == [] && overflow == None
    {
      buf, overflow := [], None;
    }

    /** Whether the bytes may be handed out: no collection had to be left without a header. */
    predicate CheckOverflow()
      reads this
    {
      overflow.None?
    }

    method WriteNull()
      modifies this`buf
      ensures buf == old(buf) + [NULL]
    {
      buf := buf + [NULL];
    }

    method WriteBool(b: bool)
      modifies this`buf
      ensures buf == old(buf) + [if b then TRUE else FALSE]
    {
      buf := buf + [if b then TRUE else FALSE];
    }

    /** A marker byte and the bytes that belong to it. */
    method Append(marker: byte, b: bytes)
      modifies this`buf
      ensures buf == old(buf) + ([marker] + b)
    {
      buf := buf + [marker];
      buf := buf + b;
    }

    method WriteInt(n: i64)
      modifies this`buf
      ensures buf == old(buf) + IntBytes(n)
    {
      Pow256Values();
      if -16 <= n <= 127 {
        buf := buf + [if n < 0 then n + 0x100 else n];
      } else if -0x80 <= n < 0x80 {
        Append(INT_8, BeSigned(1, n));
      } else if -0x8000 <= n < 0x8000 {
        Append(INT_16, BeSigned(2, n));
      } else if -0x8000_0000 <= n < 0x8000_0000 {
        Append(INT_32, BeSigned(4, n));
      } else {
        Append(INT_64, BeSigned(8, n));
      }
    }

    method WriteFloat(bits: Double)
      modifies this`buf
      ensures buf == old(buf) + FloatBytes(bits)
    {
      Append(FLOAT_64, Be(8, bits));
    }

    /** Only the first over-long length is kept. */
    method MarkOverflow(len: nat)
      modifies this`overflow
      ensures overflow == First(old(overflow), Some(len))
    {
      if overflow.None? {
        overflow := Some(len);
      }
    }

    method WriteCollectionHeader(f: Family, len: nat)
      requires IsFamily(f)
      modifies this
      ensures buf == old(buf) + Header(f, len)
      ensures overflow == First(old(overflow), Refused(len))
    {
      if len <= 15 {
        buf := buf + [f.tiny + len];
      } else if len <= 0xFF {
        Append(f.m8, Be(1, len));
      } else if len <= 0xFFFF {
        Append(f.m16, Be(2, len));
      } else if len > MAX_COLLECTION_LEN {
        MarkOverflow(len);
      } else {
        Append(f.m32, Be(4, len));
      }
    }

    method WriteString(s: bytes)
      modifies this
      ensures buf == old(buf) + StringBytes(s)
      ensures overflow == First(old(overflow), Refused(|s|))
    {
      WriteCollectionHeader(STRING, |s|);
      buf := buf + s;
    }

    method WriteBytes(b: bytes)
      modifies this
      ensures buf == old(buf) + BinaryBytes(b)
      ensures overflow == First(old(overflow), Refused(|b|))
    {
      if |b| > MAX_COLLECTION_LEN {
        MarkOverflow(|b|);
      } else {
        WriteBinaryHeader(|b|);
        hide BinaryHeader;
        buf := buf + b;
      }
    }

    method WriteBinaryHeader(len: nat)
      requires len <= MAX_COLLECTION_LEN
      modifies this`buf
      ensures buf == old(buf) + BinaryHeader(len)
    {
      if len <= 0xFF {
        Append(BYTES_8, Be(1, len));
      } else if len <= 0xFFFF {
        Append(BYTES_16, Be(2, len));
      } else {
        Append(BYTES_32, Be(4, len));
      }
    }

    /** Refused, with nothing written, above fifteen fields. */
    method WriteStructHeader(tag: byte, fields: nat) returns (ok: bool)
      modifies this`buf
      ensures ok == (fields <= MAX_STRUCT_FIELDS)
      ensures buf == if ok then old(buf) + StructHeader(tag, fields) else old(buf)
    {
      if fields > MAX_STRUCT_FIELDS {
        return false;
      }
      buf := buf + [TINY_STRUCT_BASE + fields];
      buf := buf + [tag];
      ok := true;
    }

    method PackZonedDateTime(v: Value)
      requires v.ZonedDateTime?
      modifies this
      ensures buf == old(buf) + TemporalBytes(v)
      ensures overflow == First(old(overflow), Refused(|v.zone|))
    {
      hide IntBytes, StructHeader, StringBytes;
      var utc := ClampI64(v.localSeconds - v.offset);
      var _ := WriteStructHeader(TemporalTag(v), 3);
      WriteInt(utc);
      WriteInt(v.localNanos);
      if v.zone == [] {
        WriteInt(v.offset);
      } else {
        WriteString(v.zone);
      }
      assert buf == old(buf) + (StructHeader(TemporalTag(v), 3) + TemporalBody(v));
    }

    method PackDuration(v: Value)
      requires v.Duration?
      modifies this`buf
      ensures buf == old(buf) + TemporalBytes(v)
    {
      hide IntBytes, StructHeader;
      var _ := WriteStructHeader(DURATION, 4);
      WriteInt(v.months);
      WriteInt(v.days);
      WriteInt(v.seconds);
      WriteInt(v.durationNanos);
      assert buf == old(buf) + (StructHeader(DURATION, 4) + TemporalBody(v));
    }

    /** Any temporal value, as the structure its class travels in. */
    method PackTemporal(v: Value)
      requires IsTemporal(v)
      modifies this
      ensures buf == old(buf) + TemporalBytes(v)
      ensures overflow == First(old(overflow), if v.ZonedDateTime? then Refused(|v.zone|) else None)
    {
      hide IntBytes, StructHeader;
      if v.ZonedDateTime? {
        PackZonedDateTime(v);
        return;
      }
      if v.Duration? {
        PackDuration(v);
        return;
      }
      var _ := WriteStructHeader(TemporalTag(v), TemporalFields(TemporalTag(v)));
      match v {
        case Date(d) => WriteInt(d);
        case LocalTime(n) => WriteInt(ClampI64(n));
        case ZonedTime(n, o) =>
          WriteInt(ClampI64(n));
          WriteInt(o);
        case LocalDateTime(s, n) =>
          WriteInt(s);
          WriteInt(n);
      }
    }

    method PackPoint(p: SpatialPoint)
      modifies this`buf
      ensures buf == old(buf) + PointBytes(p)
    {
      hide IntBytes, FloatBytes;
      var tag := if p.crs.Dimensions() == 2 then POINT_2D else POINT_3D;
      var _ := WriteStructHeader(tag, 1 + p.crs.Dimensions());
      WriteInt(p.crs.Srid());
      ghost var start := buf;
      for i := 0 to |p.coords|
        invariant buf + CoordBytes(p.coords[i..]) == start + CoordBytes(p.coords)
      {
        ghost var before := buf;
        WriteFloat(p.coords[i]);
        assert p.coords[i..][1..] == p.coords[i + 1..];
        assert buf + CoordBytes(p.coords[i + 1..]) == before + CoordBytes(p.coords[i..]);
      }
      assert buf == start + CoordBytes(p.coords);
    }

    method PackValue(v: Value)
      modifies this
      ensures buf == old(buf) + Pack(v, 0)
      ensures overflow == First(old(overflow), Overlong(v, 0))
    {
      PackValueAt(v, 0);
    }

    method PackValueAt(v: Value, depth: nat)
      modifies this
      ensures buf == old(buf) + Pack(v, depth)
      ensures overflow == First(old(overflow), Overlong(v, depth))
      decreases v, 1
    {
      hide IntBytes, FloatBytes, StringBytes, BinaryBytes, PointBytes, TemporalBytes, Header, PackItems, PackEntries,
        OverlongItems, OverlongEntries;
      if depth > MAX_ENCODE_DEPTH {
        WriteNull();
        return;
      }
      match v
      case Null => WriteNull();
      case Boolean(b) => WriteBool(b);
      case Integer(n) => WriteInt(n);
      case Float(bits) => WriteFloat(bits);
      case String(s) => WriteString(s);
      case Binary(b) => WriteBytes(b);
      case Point(p) => PackPoint(p);
      case List(items) =>
        WriteCollectionHeader(LIST, |items|);
        PackItemsAt(items, depth + 1);
      case Map(entries) =>
        WriteCollectionHeader(MAP, |entries|);
        PackEntriesAt(entries, depth + 1);
      case _ => PackTemporal(v);
    }

    method PackItemsAt(items: seq<Value>, depth: nat)
      modifies this
      ensures buf == old(buf) + PackItems(items, depth)
      ensures overflow == First(old(overflow), OverlongItems(items, depth))
      decreases items, 0
    {
      hide Pack, Overlong;
      for i := 0 to |items|
        invariant buf + PackItems(items[i..], depth) == old(buf) + PackItems(items, depth)
        invariant First(overflow, OverlongItems(items[i..], depth)) == First(old(overflow), OverlongItems(items, depth))
      {
        ghost var before := buf;
        PackValueAt(items[i], depth);
        assert items[i..][1..] == items[i + 1..];
        assert buf + PackItems(items[i + 1..], depth) == before + PackItems(items[i..], depth);
      }
      assert buf + PackItems(items[|items|..], depth) == buf;
    }

    method PackEntriesAt(entries: seq<Entry>, depth: nat)
      modifies this
      ensures buf == old(buf) + PackEntries(entries, depth)
      ensures overflow == First(old(overflow), OverlongEntries(entries, depth))
      decreases entries, 0
    {
      hide Pack, Overlong, StringBytes;
      for i := 0 to |entries|
        invariant buf + PackEntries(entries[i..], depth) == old(buf) + PackEntries(entries, depth)
        invariant First(overflow, OverlongEntries(entries[i..], depth))
               == First(old(overflow), OverlongEntries(entries, depth))
      {
        ghost var before := buf;
        WriteString(entries[i].key);
        PackValueAt(entries[i].value, depth);
        assert entries[i..][1..] == entries[i + 1..];
        assert buf + PackEntries(entries[i + 1..], depth) == before + PackEntries(entries[i..], depth);
      }
      assert buf + PackEntries(entries[|entries|..], depth) == buf;
    }
  }
}
