/** The observable state of one MetadocPlugin instance and what each accessor
    of index.js does to it, as functions of the runtime oracles. */
module PluginState {
  import opened Values
  import opened Extraction

  /** The status `set source` passes to process.exit when neither a module
      load nor JSON.parse succeeds. */
  const ExitFailure: int := 1

  /** SOURCE and OUTPUT, the payloads of the 'source' events emitted so far
      (in order), and the status the process exited with, if it did. */
  datatype State = State(source: Value, output: string, events: seq<Value>, exitCode: Option<int>)

  /** How one assignment to `source` ends: a module load, a successful parse
      of the extracted text, or process.exit. */
  datatype Ingestion = Loaded(exports: Value) | Parsed(value: Value, text: string) | Exited(code: int)

  /** The constructor: SOURCE and OUTPUT both hold ''. */
  function Initial(): (st: State)
    ensures st.source == Str("") && st.output == ""
    ensures st.events == [] && st.exitCode == None
  {
    State(Str(""), "", [], None)
  }

  /** The try/catch of the `source` setter: require(path.resolve(value)) first,
      else JSON.parse of the extracted text, else exit with status 1. */
  function Ingest(rt: Runtime, value: string): (r: Ingestion)
    ensures r.Loaded? <==> rt.require(rt.resolve(value)).Some?
    ensures r.Loaded? ==> rt.require(rt.resolve(value)) == Some(r.exports)
    ensures r.Parsed? ==> r.text == Extract(value) && rt.parse(r.text) == Some(r.value)
    ensures r.Exited? <==> rt.require(rt.resolve(value)).None? && rt.parse(Extract(value)).None?
    ensures r.Exited? ==> r.code == 1
  {
    match rt.require(rt.resolve(value))
    case Some(m) => Loaded(m)
    case None =>
      var text := Extract(value);
      match rt.parse(text)
      case Some(v) => Parsed(v, text)
      case None => Exited(ExitFailure)
  }

  /** `set output`: OUTPUT becomes the resolved path; nothing else changes. */
  function WithOutput(rt: Runtime, st: State, value: string): (st': State)
    requires st.exitCode.None?
    ensures st'.output == rt.resolve(value)
    ensures st'.source == st.source && st'.events == st.events && st'.exitCode == None
  {
    st.(output := rt.resolve(value))
  }

  /** `set source`: either SOURCE is assigned and exactly one event is
      emitted, or the process exits with status 1 and SOURCE and the events
      stay as they were. OUTPUT never changes. */
  function WithSource(rt: Runtime, st: State, value: string): (st': State)
    requires st.exitCode.None?
    ensures st'.output == st.output
    ensures st'.exitCode.None? ==> |st'.events| == |st.events| + 1 && st'.events[..|st.events|] == st.events
    ensures st'.exitCode.Some? ==> st'.exitCode == Some(1) && st'.source == st.source && st'.events == st.events
  {
    match Ingest(rt, value)
    case Loaded(m) => st.(source := m, events := st.events + [m])
    case Parsed(v, text) => st.(source := v, events := st.events + [Str(text)])
    case Exited(code) => st.(exitCode := Some(code))
  }

  /** A module that loads becomes SOURCE and the event payload, and JSON.parse
      is never consulted: any other parser gives the same new state. */
  lemma ModuleLoadWins(rt: Runtime, st: State, value: string, parse: string -> Option<Value>)
    requires st.exitCode.None?
    requires rt.require(rt.resolve(value)).Some?
    ensures var m := rt.require(rt.resolve(value)).value;
      WithSource(rt, st, value) == st.(source := m, events := st.events + [m])
    ensures WithSource(rt.(parse := parse), st, value) == WithSource(rt, st, value)
  {
  }

  /** When the module load fails and the extracted text parses, SOURCE is the
      parsed value but the event carries the extracted text, which starts with '{'. */
  lemma ParsePathEmitsText(rt: Runtime, st: State, value: string)
    requires st.exitCode.None?
    requires rt.require(rt.resolve(value)).None?
    requires rt.parse(Extract(value)).Some?
    ensures var st' := WithSource(rt, st, value);
      st'.source == rt.parse(Extract(value)).value &&
      st'.events == st.events + [Str(Extract(value))] &&
      st'.events[|st.events|].text[0] == '{' &&
      st'.exitCode.None?
  {
  }

  /** When both the module load and the parse fail, the process exits with
      status 1, SOURCE keeps its value and no event is emitted. */
  lemma BothFailExits(rt: Runtime, st: State, value: string)
    requires st.exitCode.None?
    requires rt.require(rt.resolve(value)).None?
    requires rt.parse(Extract(value)).None?
    ensures WithSource(rt, st, value) == st.(exitCode := Some(ExitFailure))
  {
  }

  /** Text that is already a '{'-led JSON object is parsed as it stands. */
  lemma BraceLedTextParsedVerbatim(rt: Runtime, text: string)
    requires rt.require(rt.resolve(text)).None?
    requires |text| >= 1 && text[0] == '{'
    ensures Ingest(rt, text) == match rt.parse(text)
                                case Some(v) => Parsed(v, text)
                                case None => Exited(ExitFailure)
  {
    ExtractKeepsBraceLed(text);
  }

  /** Log noise (free of '{') in front of a '{'-led body does not change what
      is stored or emitted, when neither text names a loadable module. */
  lemma NoiseDoesNotMatter(rt: Runtime, st: State, noise: string, body: string)
    requires st.exitCode.None?
    requires Brace !in noise
    requires |body| >= 1 && body[0] == Brace
    requires rt.require(rt.resolve(noise + body)).None? && rt.require(rt.resolve(body)).None?
    ensures WithSource(rt, st, noise + body) == WithSource(rt, st, body)
  {
    ExtractDropsNoise(noise, body);
    ExtractKeepsBraceLed(body);
  }

  /** Empty or '{'-free text that is no module reaches JSON.parse as the lone
      text "{": there is no separate diagnostic for an empty source. */
  lemma NoBraceParsesLoneBrace(rt: Runtime, value: string)
    requires Brace !in value
    requires rt.require(rt.resolve(value)).None?
    ensures Ingest(rt, value) == match rt.parse([Brace])
                                 case Some(v) => Parsed(v, [Brace])
                                 case None => Exited(ExitFailure)
  {
    ExtractWithoutBrace(value);
  }
}
