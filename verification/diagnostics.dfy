/**
 * Diagnostics sinks: a collector receives `report`, `info`, `warn` and
 * `error` calls. The array collector appends each one to a list the caller
 * can read back, the null collector drops them, and the console collector
 * hands each to the logger channel of its level.
 */
module Diagnostics {
  import opened Wrappers

  datatype DiagnosticLevel = Info | Warn | Error

  /**
   * The optional payload of a diagnostic. The source allows any value and
   * never looks inside it, so one opaque string stands for it here.
   */
  type Data = string

  datatype Diagnostic = Diagnostic(level: DiagnosticLevel, message: string, data: Option<Data>)

  /** One call on the collector interface. */
  datatype Call =
    | Report(diagnostic: Diagnostic)
    | InfoCall(message: string, data: Option<Data>)
    | WarnCall(message: string, data: Option<Data>)
    | ErrorCall(message: string, data: Option<Data>)

  /** The direct call for a level: `info`, `warn` or `error` with that message and payload. */
  function LevelCall(level: DiagnosticLevel, message: string, data: Option<Data>): (c: Call)
    ensures !c.Report?
    ensures c.message == message && c.data == data
  {
    match level
    case Info => InfoCall(message, data)
    case Warn => WarnCall(message, data)
    case Error => ErrorCall(message, data)
  }

  // ---------------------------------------------------------------------
  // The array collector

  /**
   * The entry the array collector appends for a call: the diagnostic of a
   * `report` unchanged, otherwise a new record with the call's level,
   * message and payload.
   */
  function Entry(c: Call): (d: Diagnostic)
    ensures c.Report? ==> d == c.diagnostic
    ensures c.InfoCall? ==> d == Diagnostic(Info, c.message, c.data)
    ensures c.WarnCall? ==> d == Diagnostic(Warn, c.message, c.data)
    ensures c.ErrorCall? ==> d == Diagnostic(Error, c.message, c.data)
  {
    match c
    case Report(diagnostic) => diagnostic
    case InfoCall(message, data) => Diagnostic(Info, message, data)
    case WarnCall(message, data) => Diagnostic(Warn, message, data)
    case ErrorCall(message, data) => Diagnostic(Error, message, data)
  }

  /** What a run of calls leaves in the array: one entry per call, in call order. */
  function Entries(calls: seq<Call>): (r: seq<Diagnostic>)
    ensures |r| == |calls|
    ensures forall i :: 0 <= i < |calls| ==> r[i] == Entry(calls[i])
    decreases |calls|
  {
    if calls == [] then [] else Entries(calls[..|calls| - 1]) + [Entry(calls[|calls| - 1])]
  }

  /** A later run of calls only extends what an earlier run recorded. */
  lemma {:induction false} EntriesAppend(a: seq<Call>, b: seq<Call>)
    ensures Entries(a + b) == Entries(a) + Entries(b)
    decreases |b|
  {
    if b != [] {
      var b' := b[..|b| - 1];
      assert (a + b)[..|a + b| - 1] == a + b';
      EntriesAppend(a, b');
    }
  }

  /** Reporting a diagnostic records the same entry as the direct call of its level. */
  lemma ReportMatchesLevelCall(d: Diagnostic)
    ensures Entry(Report(d)) == Entry(LevelCall(d.level, d.message, d.data))
  {
  }

  /**
   * The array collector. `diagnostics` is the array it shares with its
   * creator: every call appends to it, and nothing else changes it.
   */
  class ArrayDiagnosticsCollector {
    var diagnostics: seq<Diagnostic>

    /** `createArrayDiagnosticsCollector`: a collector over a fresh, empty array. */
    constructor ()
      ensures diagnostics == []
    {
      diagnostics := [];
    }

    /** `report`: the diagnostic is appended unchanged. */
    method Report(diagnostic: Diagnostic)
      modifies this
      ensures diagnostics == old(diagnostics) + [diagnostic]
    {
      diagnostics := diagnostics + [diagnostic];
    }

    /** `info`: one entry at level info. */
    method Info(message: string, data: Option<Data>)
      modifies this
      ensures diagnostics == old(diagnostics) + [Diagnostic(DiagnosticLevel.Info, message, data)]
    {
      diagnostics := diagnostics + [Diagnostic(DiagnosticLevel.Info, message, data)];
    }

    /** `warn`: one entry at level warn. */
    method Warn(message: string, data: Option<Data>)
      modifies this
      ensures diagnostics == old(diagnostics) + [Diagnostic(DiagnosticLevel.Warn, message, data)]
    {
      diagnostics := diagnostics + [Diagnostic(DiagnosticLevel.Warn, message, data)];
    }

    /** `error`: one entry at level error. */
    method Error(message: string, data: Option<Data>)
      modifies this
      ensures diagnostics == old(diagnostics) + [Diagnostic(DiagnosticLevel.Error, message, data)]
    {
      diagnostics := diagnostics + [Diagnostic(DiagnosticLevel.Error, message, data)];
    }

    /** Any one call on the interface appends exactly its entry. */
    method Receive(c: Call)
      modifies this
      ensures diagnostics == old(diagnostics) + [Entry(c)]
    {
      match c
      case Report(d) => Report(d);
      case InfoCall(message, data) => Info(message, data);
      case WarnCall(message, data) => Warn(message, data);
      case ErrorCall(message, data) => Error(message, data);
    }

    /** A run of calls, one after the other: the earlier entries stay, the new ones follow in call order. */
    method ReceiveAll(calls: seq<Call>)
      modifies this
      ensures diagnostics == old(diagnostics) + Entries(calls)
    {
      var i := 0;
      while i < |calls|
        invariant 0 <= i <= |calls|
        invariant diagnostics == old(diagnostics) + Entries(calls[..i])
        decreases |calls| - i
      {
        Receive(calls[i]);
        assert calls[..i + 1][..i] == calls[..i];
        i := i + 1;
      }
      assert calls[..|calls|] == calls;
    }
  }

  // ---------------------------------------------------------------------
  // The console collector

  /** The three logger methods the console collector uses. */
  datatype Channel = Log | WarnChannel | ErrorChannel

  /** One logger call: the channel, and the message and payload passed to it. */
  datatype LoggerCall = LoggerCall(channel: Channel, message: string, data: Option<Data>)

  /** The channel a level is logged on: errors and warnings on their own, everything else on `log`. */
  function ChannelOf(level: DiagnosticLevel): (ch: Channel)
    ensures ch == ErrorChannel <==> level == Error
    ensures ch == WarnChannel <==> level == Warn
    ensures ch == Log <==> level == Info
  {
    match level
    case Error => ErrorChannel
    case Warn => WarnChannel
    case Info => Log
  }

  /**
   * The logger call the console collector makes for a call: `report`
   * routes on the diagnostic's level, the direct calls go to their own
   * channel; message and payload are passed through.
   */
  function Route(c: Call): (l: LoggerCall)
    ensures c.Report? ==> l == LoggerCall(ChannelOf(c.diagnostic.level), c.diagnostic.message, c.diagnostic.data)
    ensures c.InfoCall? ==> l == LoggerCall(Log, c.message, c.data)
    ensures c.WarnCall? ==> l == LoggerCall(WarnChannel, c.message, c.data)
    ensures c.ErrorCall? ==> l == LoggerCall(ErrorChannel, c.message, c.data)
  {
    match c
    case Report(d) =>
      if d.level == Error then LoggerCall(ErrorChannel, d.message, d.data)
      else if d.level == Warn then LoggerCall(WarnChannel, d.message, d.data)
      else LoggerCall(Log, d.message, d.data)
    case InfoCall(message, data) => LoggerCall(Log, message, data)
    case WarnCall(message, data) => LoggerCall(WarnChannel, message, data)
    case ErrorCall(message, data) => LoggerCall(ErrorChannel, message, data)
  }

  /** Reporting a diagnostic logs the same as the direct call of its level. */
  lemma RouteReportMatchesLevelCall(d: Diagnostic)
    ensures Route(Report(d)) == Route(LevelCall(d.level, d.message, d.data))
  {
  }

  /** The console and array collectors agree: the console logs each recorded entry on its level's channel. */
  lemma RouteFollowsEntry(c: Call)
    ensures Route(c) == LoggerCall(ChannelOf(Entry(c).level), Entry(c).message, Entry(c).data)
  {
  }

  // ---------------------------------------------------------------------
  // The three collectors side by side

  /** The collectors the core can create. */
  datatype Collector = NullCollector | ArrayCollector | ConsoleCollector

  /** What a collector's calls can be seen to do: the array's entries and the logger's calls. */
  datatype Observed = Observed(diagnostics: seq<Diagnostic>, logged: seq<LoggerCall>)

  /** The effect of one call: the null collector ignores it. */
  function Step(collector: Collector, s: Observed, c: Call): (t: Observed)
    ensures collector == NullCollector ==> t == s
    ensures collector == ArrayCollector ==> t == s.(diagnostics := s.diagnostics + [Entry(c)])
    ensures collector == ConsoleCollector ==> t == s.(logged := s.logged + [Route(c)])
  {
    match collector
    case NullCollector => s
    case ArrayCollector => s.(diagnostics := s.diagnostics + [Entry(c)])
    case ConsoleCollector => s.(logged := s.logged + [Route(c)])
  }

  /** The effect of a run of calls, one after the other. */
  function Run(collector: Collector, s: Observed, calls: seq<Call>): Observed
    decreases |calls|
  {
    if calls == [] then s else Step(collector, Run(collector, s, calls[..|calls| - 1]), calls[|calls| - 1])
  }

  /** The logger calls a run makes on the console. */
  function Routes(calls: seq<Call>): (r: seq<LoggerCall>)
    ensures |r| == |calls|
    ensures forall i :: 0 <= i < |calls| ==> r[i] == Route(calls[i])
    decreases |calls|
  {
    if calls == [] then [] else Routes(calls[..|calls| - 1]) + [Route(calls[|calls| - 1])]
  }

  /** The null collector ignores every call: nothing is recorded and nothing is logged. */
  lemma {:induction false} NullIgnoresAll(s: Observed, calls: seq<Call>)
    ensures Run(NullCollector, s, calls) == s
    decreases |calls|
  {
    if calls != [] {
      NullIgnoresAll(s, calls[..|calls| - 1]);
    }
  }

  /** The array collector keeps its earlier entries, appends one per call in order, and logs nothing. */
  lemma {:induction false} ArrayRecordsAll(s: Observed, calls: seq<Call>)
    ensures Run(ArrayCollector, s, calls) == Observed(s.diagnostics + Entries(calls), s.logged)
    decreases |calls|
  {
    if calls != [] {
      ArrayRecordsAll(s, calls[..|calls| - 1]);
    }
  }

  /** The console collector records nothing and makes one logger call per call, in order. */
  lemma {:induction false} ConsoleLogsAll(s: Observed, calls: seq<Call>)
    ensures Run(ConsoleCollector, s, calls) == Observed(s.diagnostics, s.logged + Routes(calls))
    decreases |calls|
  {
    if calls != [] {
      ConsoleLogsAll(s, calls[..|calls| - 1]);
    }
  }

  /** The object collector does what the array collector's model says it does. */
  method ArrayCollectorMatches(calls: seq<Call>) returns (recorded: seq<Diagnostic>)
    ensures recorded == Run(ArrayCollector, Observed([], []), calls).diagnostics
    ensures |recorded| == |calls|
  {
    var collector := new ArrayDiagnosticsCollector();
    collector.ReceiveAll(calls);
    recorded := collector.diagnostics;
    ArrayRecordsAll(Observed([], []), calls);
  }
}
