# MetadocPlugin source ingestion, modelled in Dafny

This project models the `MetadocPlugin` base class of metadoc-plugin (`index.js`): the two
fields it keeps, `SOURCE` and `OUTPUT`; the accessors that read and write them; and the way
`set source` turns its argument into a value.

The setter first tries to load the argument as a module. If that fails, it treats the
argument as text that may have log noise in front of the JSON. It cuts the text at the first
`{` and parses what is left. If both attempts fail, the process exits with status 1.
Otherwise the setter emits a `source` event.

Files:

- `values.dfy`: module `Values`. It holds `Option`, the JavaScript `Value` the plugin stores
  (strings are visible; every other value is an opaque handle), and `Runtime`.
  `Runtime` bundles `path.resolve`, `require` and `JSON.parse` as uninterpreted functions.
- `extraction.dfy`: module `Extraction`. It defines `split`, `join` and the
  split/shift/join/prefix extraction, compares them with the reference `FromFirstBrace`, and
  proves the lemmas below.
- `state.dfy`: module `PluginState`. It models the plugin's observable state, the outcome of
  one assignment to `source`, and what each setter does to the state.
- `history.dfy`: module `History`. It models a run as a sequence of assignments, which stops
  once the process exits. Reference definitions read `OUTPUT`, `SOURCE` and the event payloads
  off that sequence.
- `plugin.dfy`: module `Plugin`. It holds the class `MetadocPlugin`, with mutable fields,
  setter methods, getter functions and a ghost record of every assignment made. `Valid()`
  ties the fields to that record.

## Model

| member | source | states |
|---|---|---|
| Extraction.Split | index.js:32 | `split('{')` yields at least one piece, and no piece contains the separator |
| Extraction.JoinSplit | index.js:32-34 | joining the pieces of a split with the same separator gives back the original text |
| Extraction.SplitJoin | index.js:32-34 | splitting a join of separator-free pieces gives back the pieces, so split and join are inverses |
| Extraction.Join | index.js:34 | `join('{')` of no pieces is `''`; otherwise the text starts with the first piece, and a separator follows it when there are more pieces |
| Extraction.SplitNoSeparator | index.js:32 | text without the separator splits into itself alone |
| Extraction.SplitAt | index.js:32-33 | the first piece ends at the first separator, and the pieces after it are the split of the rest |
| Extraction.Extract | index.js:32-34 | the extracted text is never empty and always begins with `{` |
| Extraction.ExtractIsFromFirstBrace | index.js:32-34 | the extraction equals the suffix from the first `{`, later `{` included, or `"{"` when there is none |
| Extraction.ExtractWithoutBrace | index.js:32-34 | input with no `{` (the empty string too) becomes the one-character string `"{"` |
| Extraction.ExtractDropsOnlyPrefix | index.js:32-34 | input with a `{` is a `{`-free prefix followed by its extraction: only the noise before the first `{` is dropped |
| Extraction.ExtractKeepsBraceLed | index.js:32-34 | input that already begins with `{` comes back unchanged |
| Extraction.ExtractIdempotent | index.js:32-34 | extracting twice gives the same text as extracting once |
| Extraction.ExtractDropsNoise | index.js:32-34 | `{`-free noise placed before a `{`-led body is cut away, and the body is kept verbatim |
| PluginState.Initial | index.js:9-10 | a fresh plugin holds `''` in SOURCE and OUTPUT, with no events emitted and no exit |
| PluginState.Ingest | index.js:28-41 | a module that loads is used; otherwise the extracted text is parsed if it can be; otherwise the exit status is 1, exactly when both fail |
| PluginState.WithOutput | index.js:17-19 | `set output` stores `path.resolve(value)` and leaves SOURCE, the events and the exit status as they were |
| PluginState.WithSource | index.js:25-45 | OUTPUT never changes; either exactly one event is appended, or the process exits with 1 and SOURCE and the events are kept |
| PluginState.ModuleLoadWins | index.js:28-30 | a loaded module becomes both SOURCE and the event payload; the parser is never consulted, so any parser gives the same state |
| PluginState.ParsePathEmitsText | index.js:32-44 | on the parse path SOURCE is the parsed value, but the event carries the extracted string, which starts with `{` |
| PluginState.BothFailExits | index.js:36-41 | when the load and the parse both fail, the exit status is 1, SOURCE is kept and no event is emitted |
| PluginState.BraceLedTextParsedVerbatim | index.js:32-37 | text that starts with `{` and does not load as a module reaches `JSON.parse` exactly as given |
| PluginState.NoiseDoesNotMatter | index.js:32-37 | `{`-free noise before a `{`-led body gives the same SOURCE and event as the body alone |
| PluginState.NoBraceParsesLoneBrace | index.js:32-41 | empty or `{`-free input that is not a module reaches `JSON.parse` as `"{"`; there is no separate empty-source path |
| History.RunSnoc | index.js:25-45 | one more assignment acts on the state reached so far, unless the process has already exited |
| History.RunMatchesHistory | index.js:13-49 | after any sequence of assignments, OUTPUT, SOURCE and the events match the reference readings; exit status 1 comes exactly when the last assignment that ran was a failing `source`; and if there is no exit, every assignment ran |
| History.FromConstruction | index.js:6-49 | from a fresh plugin, OUTPUT is `''` or the resolved last `output` path, SOURCE is `''` or the last value ingested, and the events are those of the successful `source` assignments |
| Plugin.MetadocPlugin.constructor | index.js:6-11 | SOURCE and OUTPUT start as `''`, with no events emitted and no exit |
| Plugin.MetadocPlugin.Output | index.js:13-15 | `get output` returns `path.resolve(v)` for the last `v` assigned, or `''` before any assignment |
| Plugin.MetadocPlugin.SetOutput | index.js:17-19 | the new fields are `WithOutput` of the old ones, and the class invariant is kept |
| Plugin.MetadocPlugin.Source | index.js:21-23 | `get source` returns the value of the last successful `source` assignment, or `''` before any |
| Plugin.MetadocPlugin.SetSource | index.js:25-45 | the new fields are `WithSource` of the old ones: assign and emit, or exit with 1 |
| Plugin.MetadocPlugin.Data | index.js:47-49 | `get data` always returns the same value as `get source` |

## Left out

- `require`, `JSON.parse` and `path.resolve` are not interpreted. They are the fields of
  `Runtime`. A call that throws is `None`. `require` receives the resolved path, as on line 29.
- `mkdirp` (index.js:51-64) is filesystem I/O, and its result depends on how the Node
  runtime treats `fs.mkdir` without a callback.
- `verifyOutputDirectory` (index.js:66-76) depends on `fs.statSync`, console output and
  `process.exit`.
- The `process()` stub (index.js:78-80) only writes a console message.
- `console.error` is not modelled. For `process.exit`, the model records only the exit status.
  No call is possible after an exit, so every setter requires that none has happened.
- EventEmitter dispatch is not modelled. The model records the payload of each `source` event
  in order, and no listener runs.
- Setter arguments that are not strings are not modelled, so `WithSource`, `SetSource`,
  `WithOutput` and `SetOutput` all take a `string`.
  - For `source`, `path.resolve` throws at line 29. The setter always goes on to
    `data.split` at line 32, which throws an uncaught TypeError.
  - For `output`, `path.resolve` at line 18 throws a TypeError, and OUTPUT keeps its value.
- Object identity is not modelled. `JSON.parse` builds a fresh object on every call. Here
  equal texts parse to equal values, so "the same SOURCE" in `NoiseDoesNotMatter` means equal
  content, not the same object.
- `rt` is fixed for the plugin's whole life. This assumes the working directory, the file
  system and the module cache do not change between assignments. `path.resolve` depends on
  the working directory. `require` depends on the file system and on the module cache. The
  theorems about sequences of assignments (`RunMatchesHistory`, `FromConstruction`) rely on
  this assumption.
- An empty or `{`-free source has no diagnostic of its own. Lines 32-34 turn it into `"{"`,
  which goes to `JSON.parse`. `NoBraceParsesLoneBrace` and `ExtractWithoutBrace` state this.
