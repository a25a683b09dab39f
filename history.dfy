/** A MetadocPlugin over its lifetime: the sequence of assignments to its
    `output` and `source` accessors, and reference definitions that read the
    resulting state off that sequence from its end. */
module History {
  import opened Values
  import opened PluginState

  /** One assignment to an accessor of the plugin. */
  datatype Call = AssignOutput(path: string) | AssignSource(value: string)

  /** One assignment, applied to a process that is still running. */
  function Apply(rt: Runtime, st: State, c: Call): State
    requires st.exitCode.None?
  {
    match c
    case AssignOutput(p) => WithOutput(rt, st, p)
    case AssignSource(v) => WithSource(rt, st, v)
  }

  /** The assignments in order; once the process has exited the rest never run. */
  function Run(rt: Runtime, st: State, calls: seq<Call>): State
    decreases |calls|
  {
    if calls == [] || st.exitCode.Some? then st
    else Run(rt, Apply(rt, st, calls[0]), calls[1..])
  }

  /** The assignments that did run: a prefix of `calls`. */
  function Performed(rt: Runtime, st: State, calls: seq<Call>): (done: seq<Call>)
    ensures |done| <= |calls| && done == calls[..|done|]
    decreases |calls|
  {
    if calls == [] || st.exitCode.Some? then []
    else [calls[0]] + Performed(rt, Apply(rt, st, calls[0]), calls[1..])
  }

  /** Whether an assignment ends the process. */
  predicate Exits(rt: Runtime, c: Call)
  {
    c.AssignSource? && Ingest(rt, c.value).Exited?
  }

  /** OUTPUT is the resolution of the last path assigned to `output`. */
  function LastOutput(rt: Runtime, calls: seq<Call>, initial: string): string
  {
    if calls == [] then initial
    else match calls[|calls| - 1]
      case AssignOutput(p) => rt.resolve(p)
      case AssignSource(_) => LastOutput(rt, calls[..|calls| - 1], initial)
  }

  /** SOURCE is the value of the last assignment to `source` that loaded a
      module or parsed. */
  function LastSource(rt: Runtime, calls: seq<Call>, initial: Value): Value
  {
    if calls == [] then initial
    else
      var earlier := LastSource(rt, calls[..|calls| - 1], initial);
      match calls[|calls| - 1]
      case AssignOutput(_) => earlier
      case AssignSource(v) =>
        match Ingest(rt, v)
        case Loaded(m) => m
        case Parsed(x, _) => x
        case Exited(_) => earlier
  }

  /** The payloads of the 'source' events: one per assignment to `source`
      that does not exit, the exports or the extracted text. */
  function Payloads(rt: Runtime, calls: seq<Call>): seq<Value>
  {
    if calls == [] then []
    else
      var earlier := Payloads(rt, calls[..|calls| - 1]);
      match calls[|calls| - 1]
      case AssignOutput(_) => earlier
      case AssignSource(v) =>
        match Ingest(rt, v)
        case Loaded(m) => earlier + [m]
        case Parsed(_, text) => earlier + [Str(text)]
        case Exited(_) => earlier
  }

  /** Running one more assignment runs it on the state reached so far, unless
      the process has already exited. */
  lemma {:induction false} RunSnoc(rt: Runtime, st: State, calls: seq<Call>, c: Call)
    ensures var s := Run(rt, st, calls);
      Run(rt, st, calls + [c]) == if s.exitCode.Some? then s else Apply(rt, s, c)
    ensures var s := Run(rt, st, calls);
      Performed(rt, st, calls + [c]) == Performed(rt, st, calls) + if s.exitCode.Some? then [] else [c]
    decreases |calls|
  {
    if calls != [] && st.exitCode.None? {
      assert (calls + [c])[1..] == calls[1..] + [c];
      RunSnoc(rt, Apply(rt, st, calls[0]), calls[1..], c);
    }
  }

  /** `s` is what the reference definitions read off the assignments `done`
      made from `st`: OUTPUT from the last `output` path, SOURCE from the last
      successful `source`, one event per successful `source`, and exit status 1
      exactly when the last assignment was a failing `source`. */
  ghost predicate Matches(rt: Runtime, st: State, s: State, done: seq<Call>)
  {
    s.output == LastOutput(rt, done, st.output) &&
    s.source == LastSource(rt, done, st.source) &&
    s.events == st.events + Payloads(rt, done) &&
    s.exitCode == (if done != [] && Exits(rt, done[|done| - 1]) then Some(ExitFailure) else None)
  }

  /** Applying one more assignment to a running state keeps it in step with
      the reference definitions. */
  lemma MatchesStep(rt: Runtime, st: State, s: State, done: seq<Call>, c: Call)
    requires s.exitCode.None? && Matches(rt, st, s, done)
    ensures Matches(rt, st, Apply(rt, s, c), done + [c])
  {
  }

  /** The state after any sequence of assignments is what the reference
      definitions read off the assignments that ran, and when the process has
      not exited, every assignment ran. */
  lemma {:induction false} RunMatchesHistory(rt: Runtime, st: State, calls: seq<Call>)
    requires st.exitCode.None?
    ensures Matches(rt, st, Run(rt, st, calls), Performed(rt, st, calls))
    ensures Run(rt, st, calls).exitCode.None? ==> Performed(rt, st, calls) == calls
    decreases |calls|
  {
    if calls != [] {
      var init, c := calls[..|calls| - 1], calls[|calls| - 1];
      assert calls == init + [c];
      RunMatchesHistory(rt, st, init);
      RunSnoc(rt, st, init, c);
      var s0, done0 := Run(rt, st, init), Performed(rt, st, init);
      if s0.exitCode.None? {
        MatchesStep(rt, st, s0, done0, c);
      } else {
        assert done0 + [] == done0;
      }
    }
  }

  /** From a fresh plugin: OUTPUT is '' until `output` is assigned, and then
      the resolution of the last path assigned; SOURCE and the data getter
      agree on the last value ingested, '' before any. */
  lemma FromConstruction(rt: Runtime, calls: seq<Call>)
    ensures var s, done := Run(rt, Initial(), calls), Performed(rt, Initial(), calls);
      s.output == LastOutput(rt, done, "") &&
      s.source == LastSource(rt, done, Str("")) &&
      s.events == Payloads(rt, done)
  {
    RunMatchesHistory(rt, Initial(), calls);
  }
}
