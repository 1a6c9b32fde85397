/** The file descriptions handed to the pool, and the symbols the pool derives from them. */
module Descriptors {
  import opened Wrappers

  /** The kinds of `Symbol`; the null symbol is modelled by an Option. */
  datatype SymbolKind = Message | Field | Enum | EnumValue | Service | Method | Package

  /** Extension numbers from `start` up to but not including `end`. */
  datatype Range = Range(start: int, end: int)

  /**
   A symbol: its kind, the name of the file that defines it, its full name (which stands for the
   identity of the descriptor), the extension ranges of a message and the full name of the type
   of an enum value.
   */
  datatype Symbol = Symbol(kind: SymbolKind, file: string, fullName: string, ranges: seq<Range>, enumType: string)
  {
    predicate IsType() {
      kind == Message || kind == Enum
    }

    predicate IsAggregate() {
      kind == Message || kind == Package || kind == Enum || kind == Service
    }
  }

  datatype FieldType = Unset | Primitive | MessageType | EnumType

  datatype FieldProto = FieldProto(
    name: string, number: int, extendee: Option<string>, fieldType: FieldType,
    typeName: Option<string>, defaultValue: Option<string>)

  datatype EnumProto = EnumProto(name: string, values: seq<string>)

  datatype MethodProto = MethodProto(name: string, inputType: string, outputType: string)

  datatype ServiceProto = ServiceProto(name: string, methods: seq<MethodProto>)

  datatype MessageProto = MessageProto(
    name: string, fields: seq<FieldProto>, nested: seq<MessageProto>, enums: seq<EnumProto>,
    ranges: seq<Range>, extensions: seq<FieldProto>, messageSet: bool)

  datatype FileProto = FileProto(
    name: string, package: string, dependencies: seq<string>, publicDependencies: seq<int>,
    weakDependencies: seq<int>, messages: seq<MessageProto>, enums: seq<EnumProto>,
    services: seq<ServiceProto>, extensions: seq<FieldProto>, hasSourceInfo: bool, otherErrors: bool)
}
