/** The MetadocPlugin class of index.js: fields SOURCE and OUTPUT that the
    constructor and the setters overwrite, getters that read them back, and
    the effects of `set source` on the process (exit) and on listeners
    (the 'source' event), recorded in two further fields. */
module Plugin {
  import opened Values
  import opened Extraction
  import opened PluginState
  import opened History

  class MetadocPlugin {
    /** path.resolve, require and JSON.parse of the running process. */
    const rt: Runtime

    var SOURCE: Value
    var OUTPUT: string
    /** Payloads of the 'source' events emitted so far, in order. */
    var emitted: seq<Value>
    /** The status passed to process.exit, once it has been called. */
    var exitCode: Option<int>

    /** Every assignment made to `output` and `source`, in order. */
    ghost var calls: seq<Call>

    /** The fields as a State value. */
    function Snapshot(): State
      reads this
    {
      State(SOURCE, OUTPUT, emitted, exitCode)
    }

    /** The fields are what the recorded assignments produce from a fresh
        plugin, and each of them ran (none came after an exit). */
    ghost predicate Valid()
      reads this
    {
      Snapshot() == Run(rt, Initial(), calls) && Performed(rt, Initial(), calls) == calls
    }

    constructor (rt: Runtime)
      ensures this.rt == rt && Valid() && calls == []
      ensures SOURCE == Str("") && OUTPUT == "" && emitted == [] && exitCode == None
    {
      this.rt := rt;
      SOURCE, OUTPUT := Str(""), "";
      emitted, exitCode := [], None;
      calls := [];
    }

    /** `get output`: '' until a path is assigned, then the resolution of the
        last path assigned. */
    function Output(): (r: string)
      reads this
      requires Valid()
      ensures r == LastOutput(rt, calls, "")
    {
      FromConstruction(rt, calls);
      OUTPUT
    }

    /** `set output`: stores the resolved path and touches nothing else. */
    method SetOutput(value: string)
      requires Valid() && exitCode.None?
      modifies this
      ensures Valid() && calls == old(calls) + [AssignOutput(value)]
      ensures Snapshot() == WithOutput(rt, old(Snapshot()), value)
    {
      OUTPUT := rt.resolve(value);
      RunSnoc(rt, Initial(), calls, AssignOutput(value));
      calls := calls + [AssignOutput(value)];
    }

    /** `get source`: '' until a value is ingested, then the last value
        ingested, whether loaded as a module or parsed. */
    function Source(): (r: Value)
      reads this
      requires Valid()
      ensures r == LastSource(rt, calls, Str(""))
    {
      FromConstruction(rt, calls);
      SOURCE
    }

    /** `set source`: load the value as a module; failing that, parse the
        text from its first '{'; failing that, exit with status 1. On success
        a 'source' event carries the exports or the extracted text. */
    method SetSource(value: string)
      requires Valid() && exitCode.None?
      modifies this
      ensures Valid() && calls == old(calls) + [AssignSource(value)]
      ensures Snapshot() == WithSource(rt, old(Snapshot()), value)
    {
      RunSnoc(rt, Initial(), calls, AssignSource(value));
      calls := calls + [AssignSource(value)];
      var payload: Value;
      var loaded := rt.require(rt.resolve(value));
      if loaded.Some? {
        SOURCE := loaded.value;
        payload := loaded.value;
      } else {
        var text := Extract(value);
        var parsed := rt.parse(text);
        if parsed.None? {
          exitCode := Some(ExitFailure);
          return;
        }
        SOURCE := parsed.value;
        payload := Str(text);
      }
      emitted := emitted + [payload];
    }

    /** `get data`: the same value as `get source`. */
    function Data(): (r: Value)
      reads this
      requires Valid()
      ensures r == Source()
    {
      SOURCE
    }
  }
}
