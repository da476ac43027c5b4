/** The decoder's cursor over a message: position, open nesting levels and element budget. */
module Unpackers {
  import opened Bytes
  import opened Wrappers
  import opened Values
  import opened Encoder
  import opened Decoder
  import opened MapAccumulators
  import Entries
  import Utf8

  class Unpacker {
    const host: Host
    const buf: bytes
    var pos: nat
    var depth: nat
    var elementsRemaining: nat

    ghost predicate InBounds()
      reads this`pos
    {
      pos <= |buf|
    }

    ghost function Rest(): bytes
      requires InBounds()
      reads this`pos
    {
      buf[pos..]
    }

    /** The cursor did what reading `spec` off the front of the unread bytes does. */
    ghost predicate Follows<T(!new)>(r: Result<T, DecodeError>, spec: Read<T>)
      reads this`pos
    {
      && InBounds()
      && match spec
         case Got(v, t) => r == Success(v) && Rest() == t
         case Bad(e) => r == Failure(e)
    }

    /** The same for a whole value: budget spent, and every level entered also left. */
    ghost predicate Yields<T(!new)>(r: Result<T, DecodeError>, spec: Decoded<T>, level: nat)
      reads this
    {
      && InBounds()
      && match spec
         case Ok(v, t, b) => r == Success(v) && Rest() == t && elementsRemaining == b && depth == level
         case Err(e) => r == Failure(e)
    }

    constructor (host: Host, buf: bytes)
      ensures this.host == host && this.buf == buf
      ensures InBounds() && Rest() == buf && depth == 0 && elementsRemaining == MAX_DECODE_ELEMENTS
    {
      this.host, this.buf := host, buf;
      pos, depth, elementsRemaining := 0, 0, MAX_DECODE_ELEMENTS;
    }

    method EnterNested() returns (r: Result<(), DecodeError>)
      modifies this`depth
      ensures depth == old(depth) + 1
      ensures r == if depth > MAX_DECODE_DEPTH then Failure(TooDeep) else Success(())
    {
      depth := depth + 1;
      r := if depth > MAX_DECODE_DEPTH then Failure(TooDeep) else Success(());
    }

    method LeaveNested()
      requires depth > 0
      modifies this`depth
      ensures depth == old(depth) - 1
    {
      depth := depth - 1;
    }

    /** One unit of the budget, or a refusal once all of it is spent. */
    method ChargeElement() returns (r: Result<(), DecodeError>)
      modifies this`elementsRemaining
      ensures old(elementsRemaining) == 0 ==> r == Failure(TooManyElements)
      ensures old(elementsRemaining) > 0 ==> r == Success(()) && elementsRemaining == old(elementsRemaining) - 1
    {
      if elementsRemaining == 0 {
        return Failure(TooManyElements);
      }
      elementsRemaining := elementsRemaining - 1;
      return Success(());
    }

    method ReadU8() returns (r: Result<byte, DecodeError>)
      requires InBounds()
      modifies this`pos
      ensures Follows(r, ReadByte(old(Rest())))
    {
      if pos == |buf| {
        return Failure(UnexpectedEnd);
      }
      r := Success(buf[pos]);
      pos := pos + 1;
    }

    method ReadRaw(n: nat) returns (r: Result<bytes, DecodeError>)
      requires InBounds()
      modifies this`pos
      ensures Follows(r, ReadSlice(n, old(Rest())))
    {
      var end := pos + n;
      if end > |buf| {
        return Failure(Truncated);
      }
      assert buf[pos..][..n] == buf[pos..end] && buf[pos..][n..] == buf[end..];
      r := Success(buf[pos..end]);
      pos := end;
    }

    /** A big-endian length, shifted in byte by byte. */
    method ReadBeLen(width: nat) returns (r: Result<nat, DecodeError>)
      requires InBounds()
      modifies this`pos
      ensures Follows(r, ReadLength(width, old(Rest())))
    {
      var field :- ReadRaw(width);
      var acc: nat := 0;
      for i := 0 to |field|
        invariant acc == UnBe(field[..i])
      {
        assert field[..i + 1][..i] == field[..i];
        acc := acc * 0x100 + field[i];
      }
      assert field[..|field|] == field;
      r := Success(acc);
    }

    method ReadSignedField(width: nat) returns (r: Result<i64, DecodeError>)
      requires InBounds() && width in {2, 4, 8}
      modifies this`pos
      ensures Follows(r, ReadSigned(width, old(Rest())))
    {
      Pow256Values();
      var field :- ReadRaw(width);
      r := Success(AsSigned(width, UnBe(field)));
    }

    method ReadInteger() returns (r: Result<i64, DecodeError>)
      requires InBounds()
      modifies this`pos
      ensures Follows(r, ReadInt(old(Rest())))
    {
      hide UnBe;
      var m :- ReadU8();
      if m == INT_8 {
        Pow256Values();
        ghost var before := Rest();
        var b :- ReadU8();
        UnBeOne(b);
        assert before[..1] == [b];
        r := Success(AsSigned(1, b));
      } else if m == INT_16 {
        r := ReadSignedField(2);
      } else if m == INT_32 {
        r := ReadSignedField(4);
      } else if m == INT_64 {
        r := ReadSignedField(8);
      } else if IsTinyInt(m) {
        var n: i64 := if m >= 0xF0 then m as int - 0x100 else m;
        r := Success(n);
      } else {
        r := Failure(BadMarker(m));
      }
    }

    method ReadCollectionHeader(f: Family) returns (r: Result<nat, DecodeError>)
      requires InBounds() && IsFamily(f)
      modifies this`pos
      ensures Follows(r, ReadHeader(f, old(Rest())))
    {
      var m :- ReadU8();
      if f.tiny <= m <= f.tiny + 0x0F {
        r := Success(m - f.tiny);
      } else if m == f.m8 {
        r := ReadBeLen(1);
      } else if m == f.m16 {
        r := ReadBeLen(2);
      } else if m == f.m32 {
        r := ReadBeLen(4);
      } else {
        r := Failure(BadMarker(m));
      }
    }

    method ReadText() returns (r: Result<bytes, DecodeError>)
      requires InBounds()
      modifies this`pos
      ensures Follows(r, ReadString(old(Rest())))
    {
      hide ReadHeader, Utf8.Valid;
      var n :- ReadCollectionHeader(STRING);
      var text :- ReadRaw(n);
      r := if Utf8.Valid(text) then Success(text) else Failure(BadUtf8);
    }

    method UnpackBytes() returns (r: Result<bytes, DecodeError>)
      requires InBounds()
      modifies this`pos
      ensures Follows(r, ReadBinary(old(Rest())))
    {
      var m :- ReadU8();
      var n: nat;
      if m == BYTES_8 {
        n :- ReadBeLen(1);
      } else if m == BYTES_16 {
        n :- ReadBeLen(2);
      } else if m == BYTES_32 {
        n :- ReadBeLen(4);
      } else {
        return Failure(BadMarker(m));
      }
      r := ReadRaw(n);
    }

    method ReadStructureHeader() returns (r: Result<(byte, nat), DecodeError>)
      requires InBounds()
      modifies this`pos
      ensures Follows(r, ReadStructHeader(old(Rest())))
    {
      var m :- ReadU8();
      if !IsStruct(m) {
        return Failure(BadMarker(m));
      }
      var tag :- ReadU8();
      r := if tag > MAX_STRUCT_TAG then Failure(BadSignature(tag)) else Success((tag, m - TINY_STRUCT_BASE));
    }

    // ---- Temporal fields ---------------------------------------------------------------------

    method ReadI32Field(tag: byte) returns (r: Result<i32, DecodeError>)
      requires InBounds()
      modifies this`pos
      ensures Follows(r, ReadI32(tag, old(Rest())))
    {
      hide ReadInt;
      var n :- ReadInteger();
      r := if FitsI32(n) then Success(n) else Failure(OutOfRange(tag));
    }

    method ReadOffsetField(tag: byte) returns (r: Result<i32, DecodeError>)
      requires InBounds()
      modifies this`pos
      ensures Follows(r, ReadOffset(tag, old(Rest())))
    {
      hide ReadI32;
      var n :- ReadI32Field(tag);
      r := if -MAX_TZ_OFFSET_SECONDS <= n <= MAX_TZ_OFFSET_SECONDS then Success(n) else Failure(OutOfRange(tag));
    }

    static function AddSeconds(a: i64, b: int, tag: byte): Result<i64, DecodeError> {
      if FitsI64(a + b) then Success(a + b) else Failure(InstantOverflow(tag))
    }

    method UnpackDateTime() returns (r: Result<Value, DecodeError>)
      requires InBounds()
      modifies this`pos
      ensures Follows(r, ReadDateTime(old(Rest())))
    {
      hide ReadInt, ReadI32, ReadOffset, SplitNanos;
      var secs :- ReadInteger();
      var raw :- ReadI32Field(DATE_TIME);
      var (carry, nanos) := SplitNanos(raw);
      var offset :- ReadOffsetField(DATE_TIME);
      var utc :- AddSeconds(secs, carry, DATE_TIME);
      var local :- AddSeconds(utc, offset, DATE_TIME);
      r := Success(ZonedDateTime(local, nanos, offset, []));
    }

    method UnpackDateTimeZoneId() returns (r: Result<Value, DecodeError>)
      requires InBounds()
      modifies this`pos
      ensures Follows(r, ReadDateTimeZoneId(host, old(Rest())))
    {
      hide ReadInt, ReadI32, ReadString, SplitNanos;
      var secs :- ReadInteger();
      var raw :- ReadI32Field(DATE_TIME_ZONE_ID);
      var (carry, nanos) := SplitNanos(raw);
      var zone :- ReadText();
      var utc :- AddSeconds(secs, carry, DATE_TIME_ZONE_ID);
      match host.localize(zone, utc) {
        case None => return Failure(UnknownZone);
        case Some((id, offset)) =>
          var local :- AddSeconds(utc, offset, DATE_TIME_ZONE_ID);
          r := Success(ZonedDateTime(local, nanos, offset, id));
      }
    }

    method UnpackDuration() returns (r: Result<Value, DecodeError>)
      requires InBounds()
      modifies this`pos
      ensures Follows(r, ReadDuration(old(Rest())))
    {
      hide ReadInt, SplitNanos;
      var months :- ReadInteger();
      var days :- ReadInteger();
      var secs :- ReadInteger();
      var raw :- ReadInteger();
      var (carry, nanos) := SplitNanos(raw);
      var total :- AddSeconds(secs, carry, DURATION);
      r := Success(Duration(months, days, total, nanos));
    }

    method UnpackTime() returns (r: Result<Value, DecodeError>)
      requires InBounds()
      modifies this`pos
      ensures Follows(r, ReadTime(old(Rest())))
    {
      hide ReadInt, ReadOffset;
      var n :- ReadInteger();
      var offset :- ReadOffsetField(TIME);
      r := Success(ZonedTime(n % NANOS_PER_DAY, offset));
    }

    method UnpackLocalDateTime() returns (r: Result<Value, DecodeError>)
      requires InBounds()
      modifies this`pos
      ensures Follows(r, ReadLocalDateTime(old(Rest())))
    {
      hide ReadInt, SplitNanos;
      var secs :- ReadInteger();
      var raw :- ReadInteger();
      var (carry, nanos) := SplitNanos(raw);
      var total :- AddSeconds(secs, carry, LOCAL_DATE_TIME);
      r := Success(LocalDateTime(total, nanos));
    }

    method UnpackTemporal(tag: byte) returns (r: Result<Value, DecodeError>)
      requires InBounds() && IsTemporalTag(tag)
      modifies this`pos
      ensures Follows(r, ReadTemporal(host, tag, old(Rest())))
    {
      hide ReadInt, ReadTime, ReadLocalDateTime, ReadDateTime, ReadDateTimeZoneId, ReadDuration;
      if tag == DATE {
        var d :- ReadInteger();
        r := if MIN_EPOCH_DAY <= d <= MAX_EPOCH_DAY then Success(Date(d)) else Failure(OutOfRange(DATE));
      } else if tag == LOCAL_TIME {
        var n :- ReadInteger();
        r := if 0 <= n < NANOS_PER_DAY then Success(LocalTime(n)) else Failure(OutOfRange(LOCAL_TIME));
      } else if tag == TIME {
        r := UnpackTime();
      } else if tag == LOCAL_DATE_TIME {
        r := UnpackLocalDateTime();
      } else if tag == DATE_TIME {
        r := UnpackDateTime();
      } else if tag == DATE_TIME_ZONE_ID {
        r := UnpackDateTimeZoneId();
      } else {
        r := UnpackDuration();
      }
    }

    // ---- Values ------------------------------------------------------------------------------

    method UnpackScalar(k: Kind) returns (r: Result<Value, DecodeError>)
      requires InBounds() && Rest() != []
      modifies this`pos
      ensures Follows(r, ReadScalar(k, old(Rest())))
    {
      hide ReadInt, ReadString, ReadBinary, UnBe;
      match k
      case NullKind =>
        var _ := ReadU8();
        r := Success(Null);
      case TrueKind =>
        var _ := ReadU8();
        r := Success(Boolean(true));
      case FalseKind =>
        var _ := ReadU8();
        r := Success(Boolean(false));
      case FloatKind =>
        Pow256Values();
        var _ := ReadU8();
        var field :- ReadRaw(8);
        r := Success(Float(UnBe(field)));
      case IntKind =>
        var n :- ReadInteger();
        r := Success(Integer(n));
      case BinaryKind =>
        var b :- UnpackBytes();
        r := Success(Binary(b));
      case StringKind =>
        var text :- ReadText();
        r := Success(String(text));
      case _ =>
        r := Failure(BadMarker(buf[pos]));
    }

    method UnpackValue() returns (r: Result<Value, DecodeError>)
      requires InBounds() && depth <= MAX_DECODE_DEPTH
      modifies this
      ensures Yields(r, Unpack(host, old(Rest()), old(depth), old(elementsRemaining)), old(depth))
      decreases |buf| - pos, 1
    {
      hide ReadScalar, ReadHeader, ReadStructHeader, UnpackStructure, UnpackItems, UnpackPairs, Entries.Dedup;
      if pos == |buf| {
        return Failure(UnexpectedEnd);
      }
      match KindOf(buf[pos])
      case ListKind =>
        var n :- ReadCollectionHeader(LIST);
        var _ :- EnterNested();
        var items :- UnpackListItems(n);
        LeaveNested();
        r := Success(List(items));
      case MapKind =>
        var n :- ReadCollectionHeader(MAP);
        var _ :- EnterNested();
        var entries :- UnpackMapEntries(n);
        LeaveNested();
        r := Success(Map(entries));
      case StructKind =>
        var _ :- EnterNested();
        var v :- UnpackStructuredValue();
        LeaveNested();
        r := Success(v);
      case k => r := UnpackScalar(k);
    }

    method UnpackListItems(n: nat) returns (r: Result<seq<Value>, DecodeError>)
      requires InBounds() && depth <= MAX_DECODE_DEPTH
      modifies this
      ensures Yields(r, UnpackItems(host, n, old(Rest()), old(depth), old(elementsRemaining)), old(depth))
      decreases |buf| - pos, 2
    {
      hide Unpack;
      var items: seq<Value> := [];
      ghost var spec := UnpackItems(host, n, Rest(), depth, elementsRemaining);
      PrependNothing(spec);
      for i := 0 to n
        invariant InBounds() && depth == old(depth) && pos >= old(pos) && (i > 0 ==> pos > old(pos))
        invariant spec == Prepend(items, UnpackItems(host, n - i, Rest(), depth, elementsRemaining))
      {
        var _ :- ChargeElement();
        var v :- UnpackValue();
        PrependOne(items, v, UnpackItems(host, n - i - 1, Rest(), depth, elementsRemaining));
        items := items + [v];
      }
      assert items + [] == items;
      r := Success(items);
    }

    /** The entries are collected in an accumulator as they arrive. */
    method UnpackMapEntries(n: nat) returns (r: Result<seq<Entry>, DecodeError>)
      requires InBounds() && depth <= MAX_DECODE_DEPTH
      modifies this
      ensures
        var pairs := UnpackPairs(host, n, old(Rest()), old(depth), old(elementsRemaining));
        Yields(r, if pairs.Ok? then Ok(Entries.Dedup(pairs.value), pairs.rest, pairs.budget) else Err(pairs.error),
               old(depth))
      decreases |buf| - pos, 2
    {
      hide Unpack, ReadString, Entries.Insert;
      var acc := new MapAccumulator();
      ghost var pairs: seq<Entry> := [];
      ghost var spec := UnpackPairs(host, n, Rest(), depth, elementsRemaining);
      PrependNothing(spec);
      for i := 0 to n
        invariant InBounds() && depth == old(depth) && pos >= old(pos) && (i > 0 ==> pos > old(pos))
        invariant fresh(acc) && acc.Valid() && acc.entries == Entries.Dedup(pairs)
        invariant spec == Prepend(pairs, UnpackPairs(host, n - i, Rest(), depth, elementsRemaining))
      {
        var _ :- ChargeElement();
        var key :- ReadText();
        var v :- UnpackValue();
        acc.Insert(key, v);
        Entries.FoldSnoc([], pairs, Entry(key, v));
        PrependOne(pairs, Entry(key, v), UnpackPairs(host, n - i - 1, Rest(), depth, elementsRemaining));
        pairs := pairs + [Entry(key, v)];
      }
      assert pairs + [] == pairs;
      r := Success(acc.entries);
    }

    method UnpackStructuredValue() returns (r: Result<Value, DecodeError>)
      requires InBounds() && depth <= MAX_DECODE_DEPTH && pos < |buf|
      modifies this
      ensures
        var head := ReadStructHeader(old(Rest()));
        Yields(r,
               if head.Bad? then Err(head.error)
               else UnpackStructure(host, head.value.0, head.value.1, head.rest, old(depth), old(elementsRemaining)),
               old(depth))
      decreases |buf| - pos, 0
    {
      hide ReadTemporal, UnpackCoords, ReadInt;
      var head :- ReadStructureHeader();
      var (tag, fields) := head;
      if IsTemporalTag(tag) {
        if fields != TemporalFields(tag) {
          return Failure(WrongFieldCount(tag, fields));
        }
        r := UnpackTemporal(tag);
      } else if tag == POINT_2D || tag == POINT_3D {
        var n := if tag == POINT_2D then 2 else 3;
        if fields != n + 1 {
          return Failure(WrongFieldCount(tag, fields));
        }
        var srid :- ReadInteger();
        var coords :- ReadFloatFields(n);
        match Crs.FromSrid(srid) {
          case None => return Failure(UnknownSrid);
          case Some(crs) =>
            r := if |coords| == crs.Dimensions() then Success(Point(RawPoint(crs, coords)))
            else Failure(WrongDimensions);
        }
      } else if tag in {NODE, RELATIONSHIP, UNBOUND_RELATIONSHIP, PATH} {
        r := Failure(GraphEntity(tag));
      } else {
        r := Failure(UnknownTag(tag));
      }
    }

    method ReadFloatFields(n: nat) returns (r: Result<seq<Double>, DecodeError>)
      requires InBounds() && depth <= MAX_DECODE_DEPTH
      modifies this
      ensures Yields(r, UnpackCoords(host, n, old(Rest()), old(depth), old(elementsRemaining)), old(depth))
      decreases |buf| - pos, 2
    {
      hide Unpack;
      var coords: seq<Double> := [];
      ghost var spec := UnpackCoords(host, n, Rest(), depth, elementsRemaining);
      PrependNothing(spec);
      for i := 0 to n
        invariant InBounds() && depth == old(depth) && pos >= old(pos) && (i > 0 ==> pos > old(pos))
        invariant spec == Prepend(coords, UnpackCoords(host, n - i, Rest(), depth, elementsRemaining))
      {
        var v :- UnpackValue();
        if !v.Float? && !v.Integer? {
          return Failure(NotAFloat);
        }
        var x := if v.Float? then v.bits else host.toDouble(v.n);
        PrependOne(coords, x, UnpackCoords(host, n - i - 1, Rest(), depth, elementsRemaining));
        coords := coords + [x];
      }
      assert coords + [] == coords;
      r := Success(coords);
    }
  }
}
