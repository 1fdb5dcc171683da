/** The parts of Google.Protobuf's reflection API the editor reads: field types, field
    descriptors, the CLR types of fields, and a message whose fields are set through accessors. */
module Descriptors {
  import opened Wrappers

  /** `Google.Protobuf.Reflection.FieldType`. */
  datatype FieldType =
    | Double | Float | Int64 | UInt64 | Int32 | Fixed64 | Fixed32 | Bool | String | Group
    | Message | Bytes | UInt32 | SFixed32 | SFixed64 | SInt32 | SInt64 | Enum

  /** `FieldDescriptor`: `containingOneof` is the name of the oneof the field belongs to (names
      are unique within a message, so the name identifies the `OneofDescriptor`);
      `messageClrType`/`enumClrType` are the generated types of message and enum fields. */
  datatype FieldDescriptor = FieldDescriptor(
    name: string,
    jsonName: string,
    fieldNumber: int,
    fieldType: FieldType,
    isRepeated: bool,
    isMap: bool,
    containingOneof: Option<string>,
    messageClrType: string,
    enumClrType: string)

  /** A CLR type a field value can have: the primitive types, `string`, `byte[]`, Google.Protobuf's
      `ByteString`, a generated message or enum class, and `System.Enum`. */
  datatype ClrType =
    | FloatType | DoubleType | LongType | ULongType | IntType | UIntType
    | BoolType | StringType | BytesType | ByteStringType
    | MessageClr(messageName: string) | EnumClr(enumName: string) | SystemEnum

  /** The CLR type of one value of a field as the C# code generator of Google.Protobuf declares
      it: the property type of a singular field, the element type of a repeated one. The
      fixed-width integers keep their integer types, and bytes are a `ByteString`. */
  function PropertyType(field: FieldDescriptor): ClrType {
    match field.fieldType
    case Double => DoubleType
    case Float => FloatType
    case Int64 => LongType
    case SInt64 => LongType
    case SFixed64 => LongType
    case UInt64 => ULongType
    case Fixed64 => ULongType
    case Int32 => IntType
    case SInt32 => IntType
    case SFixed32 => IntType
    case UInt32 => UIntType
    case Fixed32 => UIntType
    case Bool => BoolType
    case String => StringType
    case Bytes => ByteStringType
    case Group => MessageClr(field.messageClrType)
    case Message => MessageClr(field.messageClrType)
    case Enum => EnumClr(field.enumClrType)
  }

  /** A field value: its CLR type and its content. The content only tells values of one type
      apart; what it encodes is not modelled. */
  datatype FieldValue = FieldValue(clrType: ClrType, content: int)

  /** The default instance of a CLR type, which `Activator.CreateInstance` makes and an unset
      scalar field reads as. */
  function Fresh(t: ClrType): FieldValue {
    FieldValue(t, 0)
  }

  /** The selected case of a oneof and its value. */
  datatype OneofCase = OneofCase(fieldNumber: int, value: FieldValue)

  /** A message under edit: singular fields that are set, by field number, and the set case of
      each oneof, by oneof name (a oneof holds at most one case by construction). */
  class ProtoMessage {
    var values: map<int, FieldValue>
    var oneofCases: map<string, OneofCase>

    constructor (values: map<int, FieldValue>, oneofCases: map<string, OneofCase>)
      ensures this.values == values && this.oneofCases == oneofCases
    {
      this.values := values;
      this.oneofCases := oneofCases;
    }
  }
}
