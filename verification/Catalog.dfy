/** The type system: column types, their on-disk tags, ranges and codecs. */
module Catalog {
  import opened Wrappers
  import opened Bytes
  import opened Codecs

  datatype DataType = I8 | I16 | I32 | I64 | U8 | U16 | U32 | U64 | F32 | F64 | Bool | Str

  type Name = seq<Byte>

  datatype ColumnSchema = ColumnSchema(name: Name, dataType: DataType)

  function TypeTag(dt: DataType): (tag: Byte)
    ensures 1 <= tag <= 12
  {
    match dt
    case I8 => 1
    case I16 => 2
    case I32 => 3
    case I64 => 4
    case U8 => 5
    case U16 => 6
    case U32 => 7
    case U64 => 8
    case F32 => 9
    case F64 => 10
    case Bool => 11
    case Str => 12
  }

  predicate IsSigned(dt: DataType) { dt.I8? || dt.I16? || dt.I32? || dt.I64? }

  predicate IsUnsigned(dt: DataType) { dt.U8? || dt.U16? || dt.U32? || dt.U64? }

  predicate IsInteger(dt: DataType) { IsSigned(dt) || IsUnsigned(dt) }

  predicate IsFloat(dt: DataType) { dt.F32? || dt.F64? }

  /** How a value of a fixed-width column is stored; a float is stored as its bits. */
  function PrimitiveOf(dt: DataType): (p: Primitive)
    requires dt != Str
    ensures p.Valid()
  {
    match dt
    case I8 => Primitive.Int(true, 1)
    case I16 => Primitive.Int(true, 2)
    case I32 => Primitive.Int(true, 4)
    case I64 => Primitive.Int(true, 8)
    case U8 => Primitive.Int(false, 1)
    case U16 => Primitive.Int(false, 2)
    case U32 => Primitive.Int(false, 4)
    case U64 => Primitive.Int(false, 8)
    case F32 => Primitive.Int(false, 4)
    case F64 => Primitive.Int(false, 8)
    case Bool => Primitive.Bool
  }

  /** Codec selection */
  function CodecFor(dt: DataType): Codec {
    match dt
    case I16 => Codec.Delta
    case I32 => Codec.Delta
    case I64 => Codec.Delta
    case U16 => Codec.Delta
    case U32 => Codec.Delta
    case U64 => Codec.Delta
    case _ => Codec.Plain
  }

  /** The type of the first column of that name */
  function TypeOf(schema: seq<ColumnSchema>, name: Name): Option<DataType> {
    if schema == [] then None
    else if schema[0].name == name then Some(schema[0].dataType)
    else TypeOf(schema[1..], name)
  }

  function MinOf(dt: DataType): int
    requires IsInteger(dt)
  {
    match dt
    case I8 => -0x80
    case I16 => -0x8000
    case I32 => -0x8000_0000
    case I64 => -0x8000_0000_0000_0000
    case _ => 0
  }

  function MaxOf(dt: DataType): int
    requires IsInteger(dt)
  {
    match dt
    case I8 => 0x7F
    case I16 => 0x7FFF
    case I32 => 0x7FFF_FFFF
    case I64 => 0x7FFF_FFFF_FFFF_FFFF
    case U8 => 0xFF
    case U16 => 0xFFFF
    case U32 => 0xFFFF_FFFF
    case U64 => 0xFFFF_FFFF_FFFF_FFFF
  }

  predicate InRangeOf(dt: DataType, n: int)
    requires IsInteger(dt)
  {
    MinOf(dt) <= n <= MaxOf(dt)
  }
}
