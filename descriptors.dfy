/** The parts of the protobuf descriptors (what protoc hands the plugin) that the
    generator reads, as plain values. */
module Descriptors {

  newtype int32 = x: int | -0x8000_0000 <= x < 0x8000_0000

  /** FieldDescriptorProto.Type, all eighteen kinds. */
  datatype FieldType =
    | TypeDouble | TypeFloat | TypeInt64 | TypeUint64 | TypeInt32 | TypeFixed64
    | TypeFixed32 | TypeBool | TypeString | TypeGroup | TypeMessage | TypeBytes
    | TypeUint32 | TypeEnum | TypeSfixed32 | TypeSfixed64 | TypeSint32 | TypeSint64

  /** FieldDescriptorProto.Label; LabelUnset stands for a nil label pointer. */
  datatype Label = LabelUnset | LabelOptional | LabelRequired | LabelRepeated

  datatype FieldDescriptor = FieldDescriptor(name: string, fieldType: FieldType, typeName: string, fieldLabel: Label)

  datatype EnumValueDescriptor = EnumValueDescriptor(name: string, number: int32)

  datatype EnumDescriptor = EnumDescriptor(name: string, values: seq<EnumValueDescriptor>)

  datatype MessageDescriptor = MessageDescriptor(name: string, fields: seq<FieldDescriptor>)

  /** inputType and outputType are fully qualified, as protoc writes them: ".pkg.Name". */
  datatype MethodDescriptor = MethodDescriptor(name: string, inputType: string, outputType: string)

  datatype ServiceDescriptor = ServiceDescriptor(name: string, methods: seq<MethodDescriptor>)

  /** One .proto file: its path, its package ("" when it declares none) and its
      top-level declarations. */
  datatype FileDescriptor = FileDescriptor(
    name: string,
    package: string,
    enums: seq<EnumDescriptor>,
    messages: seq<MessageDescriptor>,
    services: seq<ServiceDescriptor>)

  /** A value or the text of the Go error returned instead. */
  datatype Result<T> = Ok(value: T) | Err(msg: string)
}
