/** The shapes of the loosely typed JavaScript arguments the engine inspects. */
module JsValues {
  import opened Wrappers
  import opened Utf8

  /** A `data` argument: a Node `Buffer`, a string, or anything else
      (`null`, `undefined`, a plain `Uint8Array`, a number, ...). */
  datatype DataInput = BufferData(bytes: seq<byte>) | TextData(text: string) | OtherData

  /** An `attributes` argument or field: `undefined`, `null`, a string-to-string
      record, or a function (the callback form of `publish`). */
  datatype Attributes = UndefinedAttributes | NullAttributes | AttributeMap(entries: map<string, string>) | FunctionAttributes

  /** What `publishMessage` observes of a `json` option: whether it is truthy,
      and what `JSON.stringify` returns for it (`None` stands for `undefined`,
      as for a function value). */
  datatype JsonOption = FalsyJson | TruthyJson(serialized: Option<string>)

  /** Any JavaScript value, as far as code that stores it without looking
      inside can tell: the primitives by value, and every object (a
      `Buffer`, an array, a plain object, a function) by its identity. */
  datatype JsValue =
    | Undefined
    | Null
    | Boolean(b: bool)
    | Number(n: real)
    | Text(s: string)
    | Reference(identity: nat)
}
