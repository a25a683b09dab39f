/** Values the plugin stores and the Node.js facilities it calls without this model interpreting them. */
module Values {

  datatype Option<T> = None | Some(value: T)

  /** A JavaScript value held in SOURCE or carried by a 'source' event.
      Strings are visible to the model: SOURCE starts as the empty string and
      the parse path emits the extracted text. Whatever else a module exports or
      JSON.parse builds is an opaque handle: equal values are equal content;
      object identity is not modelled. */
  datatype Value = Str(text: string) | Other(handle: nat)

  /** The runtime facilities index.js calls, as uninterpreted oracles.
      `require` and `parse` answer None where the real call throws. */
  datatype Runtime = Runtime(
    resolve: string -> string,         // path.resolve of one argument
    require: string -> Option<Value>,  // require of an absolute path: the module's exports
    parse: string -> Option<Value>)    // JSON.parse
}
