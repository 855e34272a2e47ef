/** The approval machine between model suggestions and a live terminal. */
module Sandbox {
  import opened Sequences
  import opened Markers
  import opened Sanitizer

  const MAX_CAPTURE: nat := 65_536
  const MAX_SHARED: nat := 8

  datatype Request = Request(
    command: string, session: string, target: string, directory: Option<string>, risk: Option<string>)

  /** The one-shot capability an approval returns. */
  datatype Capability = Capability(command: string, session: string)

  datatype Outcome = Outcome(
    command: string, session: string, target: string, directory: Option<string>,
    output: string, exitCode: Option<int>, truncated: bool)

  datatype Phase =
    | Idle
    | AwaitingExecution(request: Request)
    | Capturing(request: Request, output: seq<Byte>, truncated: bool)
    | AwaitingSharing(result: Outcome)

  datatype Error = Busy | NotAwaitingExecution | NotCapturingSession | NotAwaitingSharing

  datatype State = State(phase: Phase, shared: seq<Outcome>)

  /** What a call returns; a panic inside the sanitizer is a possible ending too. */
  datatype Reply = Done | Issued(capability: Capability) | Shared(result: Outcome) | Failed(error: Error) | Panicked

  /** Lossy decoding of captured bytes, an external function. */
  type Decoder = seq<Byte> -> string

  const INIT := State(Idle, [])

  function CapabilityOf(r: Request): Capability {
    Capability(r.command, r.session)
  }

  /** The captured prefix and whether anything was cut off. */
  function Capture(output: seq<Byte>, data: seq<Byte>): seq<Byte> {
    output + data[..Min(Monus(MAX_CAPTURE, |output|), |data|)]
  }

  function Cut(output: seq<Byte>, data: seq<Byte>): bool {
    Monus(MAX_CAPTURE, |output|) < |data|
  }

  function SessionOf(p: Phase): Option<string> {
    match p
    case Idle => None
    case AwaitingExecution(r) => Some(r.session)
    case Capturing(r, _, _) => Some(r.session)
    case AwaitingSharing(o) => Some(o.session)
  }

  datatype Op =
    | Propose(request: Request)
    | RejectExecution
    | ApproveExecution
    | Record(session: string, data: seq<Byte>)
    | Finish(session: string, exitCode: Option<int>, failure: seq<Byte>)
    | RejectSharing
    | ApproveSharing
    | Cancel(session: string)

  function FinishStep(
      s: State, session: string, exitCode: Option<int>, failure: seq<Byte>, decode: Decoder): (State, Reply)
  {
    if !s.phase.Capturing? || s.phase.request.session != session then (s, Failed(NotCapturingSession)) else
      var r := s.phase.request;
      match Sanitized(decode(s.phase.output + failure))
      case None => (s.(phase := Idle), Panicked)
      case Some(text) =>
        var o := Outcome(r.command, r.session, r.target, r.directory, text, exitCode, s.phase.truncated);
        (s.(phase := AwaitingSharing(o)), Done)
  }

  function Step(s: State, op: Op, decode: Decoder): (State, Reply) {
    match op
    case Propose(r) =>
      if s.phase.Idle? then (s.(phase := AwaitingExecution(r)), Done) else (s, Failed(Busy))
    case RejectExecution =>
      if s.phase.AwaitingExecution? then (s.(phase := Idle), Done) else (s, Failed(NotAwaitingExecution))
    case ApproveExecution =>
      if s.phase.AwaitingExecution? then
        (s.(phase := Capturing(s.phase.request, [], false)), Issued(CapabilityOf(s.phase.request)))
      else (s, Failed(NotAwaitingExecution))
    case Record(session, data) =>
      if s.phase.Capturing? && s.phase.request.session == session then
        (s.(phase := Capturing(s.phase.request, Capture(s.phase.output, data),
                               s.phase.truncated || Cut(s.phase.output, data))), Done)
      else (s, Done)
    case Finish(session, exitCode, failure) => FinishStep(s, session, exitCode, failure, decode)
    case RejectSharing =>
      if s.phase.AwaitingSharing? then (s.(phase := Idle), Done) else (s, Failed(NotAwaitingSharing))
    case ApproveSharing =>
      if s.phase.AwaitingSharing? then
        (State(Idle, LastN(s.shared + [s.phase.result], MAX_SHARED)), Shared(s.phase.result))
      else (s, Failed(NotAwaitingSharing))
    case Cancel(session) =>
      if SessionOf(s.phase) == Some(session) then (s.(phase := Idle), Done) else (s, Done)
  }

  /** A refused call changes nothing. */
  lemma FailureChangesNothing(s: State, op: Op, decode: Decoder)
    requires Step(s, op, decode).1.Failed?
    ensures Step(s, op, decode).0 == s
  {
  }

  // ---- a run and its observer --------------------------------------------

  /** What becomes of an accepted proposal: it is withdrawn or run; a run is abandoned
      or finishes; a result is discarded or shared. */
  datatype Fate = Proposed | Withdrawn | Running | Abandoned | Finished | Discarded | SharedOut

  /** Those still open; at most one proposal is. */
  predicate IsOpen(f: Fate) {
    f in {Proposed, Running, Finished}
  }

  const APPROVED: set<Fate> := {Running, Abandoned, Finished, Discarded, SharedOut}
  const WITH_RESULT: set<Fate> := {Finished, Discarded, SharedOut}

  /** A finished execution: which proposal it ran, all its session put out since the
      approval, and how it ended. */
  datatype Execution = Execution(
    index: nat, request: Request, stream: seq<Byte>, exitCode: Option<int>, failure: seq<Byte>)

  /** What an observer who sees only calls and replies notes down, beside the state. */
  datatype Trace = Trace(
    state: State,
    proposals: seq<Request>,       // accepted proposals
    fates: seq<Fate>,              // what became of each
    issued: seq<Capability>,       // capabilities handed out
    stream: seq<Byte>,             // output of the running session since its approval
    finished: seq<Execution>,      // executions that ended with a result
    sharedFrom: seq<Execution>,    // those whose result was approved for sharing
    sharedEver: seq<Outcome>)      // the results so approved

  const START := Trace(INIT, [], [], [], [], [], [], [])

  function SetLast(fates: seq<Fate>, f: Fate): seq<Fate> {
    if fates == [] then fates else fates[|fates| - 1 := f]
  }

  /** The fate of the last proposal. */
  function LastFate(t: Trace): Option<Fate> {
    if t.fates == [] then None else Some(t.fates[|t.fates| - 1])
  }

  /** The session of the last proposal is this one, and the proposal is in this state. */
  predicate LastIs(t: Trace, session: string, fates: set<Fate>) {
    && t.proposals != [] && t.proposals[|t.proposals| - 1].session == session
    && LastFate(t).Some? && LastFate(t).value in fates
  }

  function Cancelled(f: Fate): Fate {
    match f
    case Proposed => Withdrawn
    case Running => Abandoned
    case Finished => Discarded
    case _ => f
  }

  function Observe(t: Trace, op: Op, decode: Decoder): Trace {
    var (next, reply) := Step(t.state, op, decode);
    Note(t.(state := next), op, reply)
  }

  function Note(u: Trace, op: Op, reply: Reply): Trace {
    match op
    case Propose(r) =>
      if reply.Done? then u.(proposals := u.proposals + [r], fates := u.fates + [Proposed]) else u
    case RejectExecution => if reply.Done? then u.(fates := SetLast(u.fates, Withdrawn)) else u
    case ApproveExecution =>
      if reply.Issued? then
        u.(fates := SetLast(u.fates, Running), issued := u.issued + [reply.capability], stream := [])
      else u
    case Record(session, data) => if LastIs(u, session, {Running}) then u.(stream := u.stream + data) else u
    case Finish(_, exitCode, failure) =>
      var n := |u.proposals|;
      if reply.Done? && n > 0 then
        u.(fates := SetLast(u.fates, Finished),
           finished := u.finished + [Execution(n - 1, u.proposals[n - 1], u.stream, exitCode, failure)])
      else if reply.Panicked? then u.(fates := SetLast(u.fates, Abandoned))
      else u
    case RejectSharing => if reply.Done? then u.(fates := SetLast(u.fates, Discarded)) else u
    case ApproveSharing =>
      if reply.Shared? then
        u.(fates := SetLast(u.fates, SharedOut), sharedEver := u.sharedEver + [reply.result],
           sharedFrom := u.sharedFrom + LastN(u.finished, 1))
      else u
    case Cancel(session) =>
      if LastIs(u, session, {Proposed, Running, Finished}) then
        u.(fates := SetLast(u.fates, Cancelled(LastFate(u).value)))
      else u
  }

  function ObserveAll(t: Trace, ops: seq<Op>, decode: Decoder): Trace
    decreases |ops|
  {
    if ops == [] then t else ObserveAll(Observe(t, ops[0], decode), ops[1..], decode)
  }

  /** The numbers of the proposals with one of these fates, in order. */
  function Where(fates: seq<Fate>, wanted: set<Fate>): (indices: seq<nat>)
    ensures forall i :: 0 <= i < |indices| ==> indices[i] < |fates| && fates[indices[i]] in wanted
    ensures forall i, j :: 0 <= i < j < |indices| ==> indices[i] < indices[j]
    ensures forall k :: 0 <= k < |fates| && fates[k] in wanted ==> k in indices
  {
    if fates == [] then [] else
      var n := |fates| - 1;
      Where(fates[..n], wanted) + (if fates[n] in wanted then [n] else [])
  }

  /** A fate appended, or the last one replaced. */
  lemma WhereEnds(fates: seq<Fate>, f: Fate, wanted: set<Fate>)
    ensures Where(fates + [f], wanted) == Where(fates, wanted) + (if f in wanted then [|fates|] else [])
    ensures fates != [] ==>
              var n := |fates| - 1;
              && Where(fates, wanted) == Where(fates[..n], wanted) + (if fates[n] in wanted then [n] else [])
              && Where(SetLast(fates, f), wanted) == Where(fates[..n], wanted) + (if f in wanted then [n] else [])
  {
    assert (fates + [f])[..|fates|] == fates;
    if fates != [] {
      assert SetLast(fates, f)[..|fates| - 1] == fates[..|fates| - 1];
    }
  }

  function CapabilitiesOf(proposals: seq<Request>, indices: seq<nat>): (c: seq<Capability>)
    requires forall i :: 0 <= i < |indices| ==> indices[i] < |proposals|
    ensures |c| == |indices| && forall i :: 0 <= i < |c| ==> c[i] == CapabilityOf(proposals[indices[i]])
  {
    seq(|indices|, i requires 0 <= i < |indices| => CapabilityOf(proposals[indices[i]]))
  }

  function IndicesOf(executions: seq<Execution>): (indices: seq<nat>)
    ensures |indices| == |executions| && forall i :: 0 <= i < |indices| ==> indices[i] == executions[i].index
  {
    seq(|executions|, i requires 0 <= i < |executions| => executions[i].index)
  }

  /** The captured bytes of a running session are the first 65536 it put out. */
  predicate CaptureOk(p: Phase, stream: seq<Byte>) {
    p.Capturing? ==>
      p.output == stream[..Min(MAX_CAPTURE, |stream|)] && (p.truncated <==> |stream| > MAX_CAPTURE)
  }

  /** The phase is the last proposal's fate, all others are closed. */
  predicate PhaseOk(t: Trace) {
    var n := |t.proposals| - 1;
    && |t.fates| == |t.proposals|
    && (forall i :: 0 <= i < n ==> !IsOpen(t.fates[i]))
    && match t.state.phase
       case Idle => n < 0 || !IsOpen(t.fates[n])
       case AwaitingExecution(r) => n >= 0 && t.fates[n] == Proposed && r == t.proposals[n]
       case Capturing(r, _, _) => n >= 0 && t.fates[n] == Running && r == t.proposals[n]
       case AwaitingSharing(o) => n >= 0 && t.fates[n] == Finished && o.session == t.proposals[n].session
  }

  /** One capability for each approved proposal, one execution for each with a result,
      and those shared are those with that fate. */
  predicate LedgerOk(t: Trace) {
    && |t.fates| == |t.proposals|
    && t.issued == CapabilitiesOf(t.proposals, Where(t.fates, APPROVED))
    && IndicesOf(t.finished) == Where(t.fates, WITH_RESULT)
    && IndicesOf(t.sharedFrom) == Where(t.fates, {SharedOut})
  }

  /** The result an execution must have: its own request, the cleaned first 65536 bytes
      of its output with any failure note, and whether there was more output. */
  function ResultOf(e: Execution, decode: Decoder): Option<Outcome> {
    var r := e.request;
    match Sanitized(decode(e.stream[..Min(MAX_CAPTURE, |e.stream|)] + e.failure))
    case None => None
    case Some(text) =>
      Some(Outcome(r.command, r.session, r.target, r.directory, text, e.exitCode, |e.stream| > MAX_CAPTURE))
  }

  /** Executions ran their proposals, and each result is that of its execution: the one
      awaiting a decision of the last, each shared one of one that finished. */
  predicate ResultsOk(t: Trace, decode: Decoder) {
    && (forall i :: 0 <= i < |t.finished| ==>
          t.finished[i].index < |t.proposals| && t.finished[i].request == t.proposals[t.finished[i].index])
    && (t.state.phase.AwaitingSharing? ==>
          t.finished != [] && ResultOf(t.finished[|t.finished| - 1], decode) == Some(t.state.phase.result))
    && |t.sharedFrom| == |t.sharedEver|
    && (forall i :: 0 <= i < |t.sharedFrom| ==>
          t.sharedFrom[i] in t.finished && ResultOf(t.sharedFrom[i], decode) == Some(t.sharedEver[i]))
  }

  predicate TraceOk(t: Trace, decode: Decoder) {
    && PhaseOk(t) && LedgerOk(t) && CaptureOk(t.state.phase, t.stream) && ResultsOk(t, decode)
    && t.state.shared == LastN(t.sharedEver, MAX_SHARED)
  }

  lemma PhaseStays(t: Trace, op: Op, decode: Decoder)
    requires PhaseOk(t)
    ensures PhaseOk(Observe(t, op, decode))
  {
    hide Capture, Cut, LastN, Sanitized;
  }

  lemma ProposingKeepsLedger(t: Trace, u: Trace, r: Request)
    requires LedgerOk(t)
    requires u == t.(state := u.state, proposals := t.proposals + [r], fates := t.fates + [Proposed])
    ensures LedgerOk(u)
  {
    hide Where;
    WhereEnds(t.fates, Proposed, APPROVED);
    WhereEnds(t.fates, Proposed, WITH_RESULT);
    WhereEnds(t.fates, Proposed, {SharedOut});
  }

  /** The last proposal, if replacing its fate makes it one of a kind. */
  function Joining(fates: seq<Fate>, f: Fate, wanted: set<Fate>): (indices: seq<nat>)
    ensures forall i :: 0 <= i < |indices| ==> indices[i] < |fates|
  {
    if fates != [] && f in wanted && fates[|fates| - 1] !in wanted then [|fates| - 1] else []
  }

  /** No kind is left again: a fate only moves on. */
  predicate Stays(fates: seq<Fate>, f: Fate, wanted: set<Fate>) {
    fates != [] && (fates[|fates| - 1] in wanted ==> f in wanted)
  }

  /** The last fate moves on, and each list grows if the proposal joins its kind. */
  lemma SettlingKeepsLedger(t: Trace, u: Trace, f: Fate)
    requires LedgerOk(t) && u.proposals == t.proposals && u.fates == SetLast(t.fates, f)
    requires Stays(t.fates, f, APPROVED) && Stays(t.fates, f, WITH_RESULT) && Stays(t.fates, f, {SharedOut})
    requires u.issued == t.issued + CapabilitiesOf(t.proposals, Joining(t.fates, f, APPROVED))
    requires IndicesOf(u.finished) == IndicesOf(t.finished) + Joining(t.fates, f, WITH_RESULT)
    requires IndicesOf(u.sharedFrom) == IndicesOf(t.sharedFrom) + Joining(t.fates, f, {SharedOut})
    ensures LedgerOk(u)
  {
    hide Where, SetLast, IndicesOf, CapabilitiesOf, Joining, Stays;
    WhereSettles(t.fates, f, APPROVED);
    WhereSettles(t.fates, f, WITH_RESULT);
    WhereSettles(t.fates, f, {SharedOut});
    CapabilitiesAppend(t.proposals, Where(t.fates, APPROVED), Joining(t.fates, f, APPROVED));
  }

  lemma WhereSettles(fates: seq<Fate>, f: Fate, wanted: set<Fate>)
    requires Stays(fates, f, wanted)
    ensures Where(SetLast(fates, f), wanted) == Where(fates, wanted) + Joining(fates, f, wanted)
    ensures |SetLast(fates, f)| == |fates|
  {
    hide Where;
    WhereEnds(fates, f, wanted);
    var n := |fates| - 1;
    var before := Where(fates[..n], wanted);
    assert before + [] == before && before + [n] + [] == before + [n] && before + [] + [n] == before + [n];
  }

  lemma CapabilitiesAppend(proposals: seq<Request>, a: seq<nat>, b: seq<nat>)
    requires forall i :: 0 <= i < |a| ==> a[i] < |proposals|
    requires forall i :: 0 <= i < |b| ==> b[i] < |proposals|
    ensures CapabilitiesOf(proposals, a + b) == CapabilitiesOf(proposals, a) + CapabilitiesOf(proposals, b)
  {
  }

  /** An observed call appends a proposal, or settles the last one, or neither. */
  lemma LedgerStays(t: Trace, op: Op, decode: Decoder)
    requires PhaseOk(t) && LedgerOk(t)
    ensures LedgerOk(Observe(t, op, decode))
  {
    hide LedgerOk, Capture, Cut, Sanitized, LastN;
    var u := Observe(t, op, decode);
    if op.Propose? && t.state.phase.Idle? {
      ProposingKeepsLedger(t, u, op.request);
    } else if u.fates == t.fates {
      SameLedger(t, u);
    } else if op.ApproveExecution? {
      ApprovingKeepsLedger(t, u);
    } else if u.finished != t.finished {
      FinishingKeepsLedger(t, u);
    } else if op.ApproveSharing? {
      LastFinished(t);
      SharingKeepsLedger(t, u);
    } else {
      ClosingKeepsLedger(t, u, LastFate(u).value);
    }
  }

  lemma ApprovingKeepsLedger(t: Trace, u: Trace)
    requires LedgerOk(t) && |t.fates| == |t.proposals| && LastFate(t) == Some(Proposed)
    requires u.proposals == t.proposals && u.fates == SetLast(t.fates, Running)
    requires u.issued == t.issued + [CapabilityOf(t.proposals[|t.proposals| - 1])]
    requires u.finished == t.finished && u.sharedFrom == t.sharedFrom
    ensures LedgerOk(u)
  {
    hide LedgerOk, SetLast;
    assert CapabilitiesOf(t.proposals, [|t.proposals| - 1]) == [CapabilityOf(t.proposals[|t.proposals| - 1])];
    assert IndicesOf(t.finished) + [] == IndicesOf(t.finished);
    assert IndicesOf(t.sharedFrom) + [] == IndicesOf(t.sharedFrom);
    SettlingKeepsLedger(t, u, Running);
  }

  lemma FinishingKeepsLedger(t: Trace, u: Trace)
    requires LedgerOk(t) && |t.fates| == |t.proposals| && LastFate(t) == Some(Running)
    requires u.proposals == t.proposals && u.fates == SetLast(t.fates, Finished)
    requires u.issued == t.issued && u.sharedFrom == t.sharedFrom
    requires |u.finished| == |t.finished| + 1 && t.finished <= u.finished
    requires u.finished[|t.finished|].index == |t.proposals| - 1
    ensures LedgerOk(u)
  {
    hide LedgerOk, SetLast;
    assert t.issued + [] == t.issued && CapabilitiesOf(t.proposals, []) == [];
    assert IndicesOf(u.finished) == IndicesOf(t.finished) + [|t.proposals| - 1];
    assert IndicesOf(t.sharedFrom) + [] == IndicesOf(t.sharedFrom);
    SettlingKeepsLedger(t, u, Finished);
  }

  lemma SharingKeepsLedger(t: Trace, u: Trace)
    requires LedgerOk(t) && |t.fates| == |t.proposals| && LastFate(t) == Some(Finished)
    requires u.proposals == t.proposals && u.fates == SetLast(t.fates, SharedOut)
    requires u.issued == t.issued && u.finished == t.finished && t.finished != []
    requires u.sharedFrom == t.sharedFrom + [t.finished[|t.finished| - 1]]
    requires t.finished[|t.finished| - 1].index == |t.proposals| - 1
    ensures LedgerOk(u)
  {
    hide LedgerOk, SetLast;
    assert t.issued + [] == t.issued && CapabilitiesOf(t.proposals, []) == [];
    assert IndicesOf(t.finished) + [] == IndicesOf(t.finished);
    assert IndicesOf(u.sharedFrom) == IndicesOf(t.sharedFrom) + [|t.proposals| - 1];
    SettlingKeepsLedger(t, u, SharedOut);
  }

  /** A proposal closed without becoming one of a kind. */
  lemma ClosingKeepsLedger(t: Trace, u: Trace, f: Fate)
    requires LedgerOk(t) && LastFate(t).Some? && Cancelled(LastFate(t).value) == f && LastFate(t).value != f
    requires u.proposals == t.proposals && u.fates == SetLast(t.fates, f)
    requires u.issued == t.issued && u.finished == t.finished && u.sharedFrom == t.sharedFrom
    ensures LedgerOk(u)
  {
    hide LedgerOk, SetLast;
    assert t.issued + [] == t.issued && CapabilitiesOf(t.proposals, []) == [];
    assert IndicesOf(t.finished) + [] == IndicesOf(t.finished);
    assert IndicesOf(t.sharedFrom) + [] == IndicesOf(t.sharedFrom);
    SettlingKeepsLedger(t, u, f);
  }

  lemma SameLedger(t: Trace, u: Trace)
    requires LedgerOk(t)
    requires u == t.(state := u.state, stream := u.stream)
    ensures LedgerOk(u)
  {
  }

  /** While a result awaits a decision the last finished execution is the last proposal's. */
  lemma LastFinished(t: Trace)
    requires LedgerOk(t) && |t.fates| == |t.proposals|
    ensures LastFate(t) == Some(Finished) ==>
              && t.finished != [] && t.finished[|t.finished| - 1].index == |t.proposals| - 1
              && LastN(t.finished, 1) == [t.finished[|t.finished| - 1]]
  {
    WhereEnds(t.fates, Proposed, WITH_RESULT);
    LastOne(t.finished);
    if LastFate(t) == Some(Finished) {
      var indices := IndicesOf(t.finished);
      assert indices[|indices| - 1] == |t.fates| - 1;
    }
  }

  lemma LastOne<T>(s: seq<T>)
    ensures LastN(s, 1) == if s == [] then [] else [s[|s| - 1]]
  {
  }

  /** Recording a chunk extends the captured prefix of the stream. */
  lemma CaptureExtends(stream: seq<Byte>, data: seq<Byte>)
    ensures var output := stream[..Min(MAX_CAPTURE, |stream|)];
            && Capture(output, data) == (stream + data)[..Min(MAX_CAPTURE, |stream + data|)]
            && (|stream| > MAX_CAPTURE || Cut(output, data) <==> |stream + data| > MAX_CAPTURE)
  {
  }

  lemma CaptureStays(t: Trace, op: Op, decode: Decoder)
    requires PhaseOk(t) && CaptureOk(t.state.phase, t.stream)
    ensures CaptureOk(Observe(t, op, decode).state.phase, Observe(t, op, decode).stream)
  {
    hide Capture, Cut, LastN, Sanitized;
    match op {
      case Record(session, data) => CaptureExtends(t.stream, data);
      case _ =>
    }
  }

  /** A finish records the execution whose result it leaves awaiting a decision. */
  lemma FinishGivesResult(t: Trace, session: string, exitCode: Option<int>, failure: seq<Byte>, decode: Decoder)
    requires PhaseOk(t) && CaptureOk(t.state.phase, t.stream)
    ensures var (next, reply) := Step(t.state, Finish(session, exitCode, failure), decode);
            reply.Done? ==>
              && t.state.phase.Capturing? && |t.proposals| > 0 && next.phase.AwaitingSharing?
              && var e := Execution(|t.proposals| - 1, t.proposals[|t.proposals| - 1], t.stream, exitCode, failure);
                 ResultOf(e, decode) == Some(next.phase.result)
    ensures var (next, reply) := Step(t.state, Finish(session, exitCode, failure), decode);
            !reply.Done? ==> next == t.state || next == t.state.(phase := Idle)
  {
    hide Sanitized;
  }

  lemma ResultsStay(t: Trace, op: Op, decode: Decoder)
    requires PhaseOk(t) && CaptureOk(t.state.phase, t.stream) && ResultsOk(t, decode)
    ensures ResultsOk(Observe(t, op, decode), decode)
  {
    hide CaptureOk, ResultsOk, Capture, Cut, FinishStep, LastN, SetLast;
    match op {
      case Finish(session, exitCode, failure) =>
        FinishStays(t, session, exitCode, failure, decode);
      case ApproveSharing =>
        if t.state.phase.AwaitingSharing? {
          AwaitedHasFinished(t, decode);
          SharingStays(t, Observe(t, op, decode), decode);
        } else {
          QuietStays(t, Observe(t, op, decode), decode);
        }
      case _ => QuietStays(t, Observe(t, op, decode), decode);
    }
  }

  lemma FinishStays(t: Trace, session: string, exitCode: Option<int>, failure: seq<Byte>, decode: Decoder)
    requires PhaseOk(t) && CaptureOk(t.state.phase, t.stream) && ResultsOk(t, decode)
    ensures ResultsOk(Observe(t, Finish(session, exitCode, failure), decode), decode)
  {
    hide PhaseOk, CaptureOk, ResultsOk, FinishStep, SetLast, ResultOf;
    FinishGivesResult(t, session, exitCode, failure, decode);
    var u := Observe(t, Finish(session, exitCode, failure), decode);
    if Step(t.state, Finish(session, exitCode, failure), decode).1.Done? {
      var n := |t.proposals|;
      var e := Execution(n - 1, t.proposals[n - 1], t.stream, exitCode, failure);
      FinishingStays(t, u, e, decode);
    } else {
      QuietStays(t, u, decode);
    }
  }

  /** Calls that add neither a finished execution nor a shared result. */
  lemma QuietStays(t: Trace, u: Trace, decode: Decoder)
    requires ResultsOk(t, decode)
    requires u.finished == t.finished && u.sharedFrom == t.sharedFrom && u.sharedEver == t.sharedEver
    requires t.proposals <= u.proposals
    requires u.state.phase.AwaitingSharing? ==> u.state.phase == t.state.phase
    ensures ResultsOk(u, decode)
  {
    hide ResultOf;
  }

  lemma FinishingStays(t: Trace, u: Trace, e: Execution, decode: Decoder)
    requires ResultsOk(t, decode)
    requires u.proposals == t.proposals && u.sharedFrom == t.sharedFrom && u.sharedEver == t.sharedEver
    requires u.finished == t.finished + [e] && e.index < |t.proposals| && e.request == t.proposals[e.index]
    requires u.state.phase.AwaitingSharing? && ResultOf(e, decode) == Some(u.state.phase.result)
    ensures ResultsOk(u, decode)
  {
    hide ResultOf;
  }

  lemma SharingStays(t: Trace, u: Trace, decode: Decoder)
    requires ResultsOk(t, decode) && t.state.phase.AwaitingSharing? && !u.state.phase.AwaitingSharing?
    requires u.proposals == t.proposals && u.finished == t.finished && t.finished != []
    requires u.sharedFrom == t.sharedFrom + [t.finished[|t.finished| - 1]]
    requires u.sharedEver == t.sharedEver + [t.state.phase.result]
    ensures ResultsOk(u, decode)
  {
    hide ResultOf;
    assert t.finished[|t.finished| - 1] in t.finished;
  }

  lemma AwaitedHasFinished(t: Trace, decode: Decoder)
    requires ResultsOk(t, decode) && t.state.phase.AwaitingSharing?
    ensures t.finished != [] && LastN(t.finished, 1) == [t.finished[|t.finished| - 1]]
  {
    LastOne(t.finished);
  }

  lemma StepKeepsTraceOk(t: Trace, op: Op, decode: Decoder)
    requires TraceOk(t, decode)
    ensures TraceOk(Observe(t, op, decode), decode)
  {
    hide PhaseOk, LedgerOk, CaptureOk, ResultsOk, Sanitized;
    PhaseStays(t, op, decode);
    LedgerStays(t, op, decode);
    CaptureStays(t, op, decode);
    ResultsStay(t, op, decode);
    if op.ApproveSharing? && t.state.phase.AwaitingSharing? {
      LastNTwice(t.sharedEver, [t.state.phase.result], MAX_SHARED);
    }
  }

  /** Over every sequence of calls: the phase is what the calls and replies made of the
      last proposal; capabilities match the approved proposals one to one and in order;
      captured bytes are the first 65536 of the running session's output however it was
      chunked, and `truncated` says exactly whether there was more; each finished
      execution has one result, its own; the results shared are those of the executions
      approved for it, once each, and the last eight of them are kept. */
  lemma {:induction false} EveryRunIsAccounted(t: Trace, ops: seq<Op>, decode: Decoder)
    requires TraceOk(t, decode)
    ensures TraceOk(ObserveAll(t, ops, decode), decode)
    decreases |ops|
  {
    hide TraceOk, Observe;
    if ops != [] {
      StepKeepsTraceOk(t, ops[0], decode);
      EveryRunIsAccounted(Observe(t, ops[0], decode), ops[1..], decode);
    }
  }

  lemma StartIsAccounted(decode: Decoder)
    ensures TraceOk(START, decode)
  {
  }

  lemma StepKeepsClosed(t: Trace, op: Op, decode: Decoder, i: nat)
    requires PhaseOk(t) && i < |t.fates| && !IsOpen(t.fates[i])
    ensures var u := Observe(t, op, decode); i < |u.fates| && u.fates[i] == t.fates[i]
  {
    hide Capture, Cut, LastN, Sanitized;
  }

  /** A closed fate is final. */
  lemma {:induction false} ClosedStaysClosed(t: Trace, ops: seq<Op>, decode: Decoder, i: nat)
    requires PhaseOk(t) && i < |t.fates| && !IsOpen(t.fates[i])
    ensures var u := ObserveAll(t, ops, decode); i < |u.fates| && u.fates[i] == t.fates[i]
    decreases |ops|
  {
    hide PhaseOk, Observe;
    if ops != [] {
      PhaseStays(t, ops[0], decode);
      StepKeepsClosed(t, ops[0], decode, i);
      ClosedStaysClosed(Observe(t, ops[0], decode), ops[1..], decode, i);
    }
  }

  /** What was withdrawn, abandoned or discarded, by a rejection or by cancelling its
      session, is not the source of any shared result in any continuation. */
  lemma RejectedIsNeverShared(t: Trace, ops: seq<Op>, decode: Decoder, i: nat)
    requires TraceOk(t, decode) && i < |t.fates| && t.fates[i] in {Withdrawn, Abandoned, Discarded}
    ensures forall e :: e in ObserveAll(t, ops, decode).sharedFrom ==> e.index != i
  {
    hide PhaseOk, CaptureOk, ResultsOk, Observe, ObserveAll, Where;
    ClosedStaysClosed(t, ops, decode, i);
    EveryRunIsAccounted(t, ops, decode);
    var u := ObserveAll(t, ops, decode);
    forall e | e in u.sharedFrom ensures e.index != i {
      var k :| 0 <= k < |u.sharedFrom| && u.sharedFrom[k] == e;
      assert IndicesOf(u.sharedFrom)[k] == e.index && u.fates[e.index] == SharedOut;
    }
  }

  /** Which calls are refused depends on the last proposal's fate alone: a proposal is
      refused exactly while one is open, a decision or an ending unless one waits for it. */
  lemma RefusedIff(t: Trace, op: Op, decode: Decoder)
    requires PhaseOk(t)
    ensures var refused := Step(t.state, op, decode).1.Failed?;
            match op
            case Propose(_) => refused <==> LastFate(t).Some? && IsOpen(LastFate(t).value)
            case RejectExecution => refused <==> LastFate(t) != Some(Proposed)
            case ApproveExecution => refused <==> LastFate(t) != Some(Proposed)
            case Finish(session, _, _) => refused <==> !LastIs(t, session, {Running})
            case RejectSharing => refused <==> LastFate(t) != Some(Finished)
            case ApproveSharing => refused <==> LastFate(t) != Some(Finished)
            case Record(_, _) => !refused
            case Cancel(_) => !refused
  {
    hide Capture, Cut, LastN, Sanitized;
  }

  /** Chunking does not matter: two chunks are one. */
  lemma ChunkingIsInvisible(s: State, session: string, a: seq<Byte>, b: seq<Byte>, decode: Decoder)
    requires s.phase.Capturing? ==> |s.phase.output| <= MAX_CAPTURE
    ensures Step(Step(s, Record(session, a), decode).0, Record(session, b), decode)
            == Step(s, Record(session, a + b), decode)
  {
    if s.phase.Capturing? {
      CapturesCompose(s.phase.output, a, b);
    }
  }

  lemma CapturesCompose(output: seq<Byte>, a: seq<Byte>, b: seq<Byte>)
    requires |output| <= MAX_CAPTURE
    ensures Capture(Capture(output, a), b) == Capture(output, a + b)
    ensures Cut(output, a) || Cut(Capture(output, a), b) <==> Cut(output, a + b)
  {
    var room := MAX_CAPTURE - |output|;
    if |a| <= room {
      assert a[..|a|] == a;
      var k := Min(room - |a|, |b|);
      assert (a + b)[..|a| + k] == a + b[..k];
      Assoc(output, a, b[..k]);
    } else {
      assert (a + b)[..room] == a[..room];
      assert b[..0] == [];
      assert output + a[..room] + [] == output + a[..room];
    }
  }

  // ---- the object --------------------------------------------------------

  class ShadowSandbox {
    var phase: Phase
    var sharedResults: seq<Outcome>

    ghost function Now(): State
      reads this
    {
      State(phase, sharedResults)
    }

    constructor ()
      ensures Now() == INIT
    {
      phase, sharedResults := Idle, [];
    }

    method ProposeExecution(request: Request, ghost decode: Decoder) returns (reply: Reply)
      modifies this
      ensures (Now(), reply) == Step(old(Now()), Propose(request), decode)
    {
      if !phase.Idle? {
        return Failed(Busy);
      }
      phase := AwaitingExecution(request);
      reply := Done;
    }

    method Reject(ghost decode: Decoder) returns (reply: Reply)
      modifies this
      ensures (Now(), reply) == Step(old(Now()), RejectExecution, decode)
    {
      if !phase.AwaitingExecution? {
        return Failed(NotAwaitingExecution);
      }
      phase := Idle;
      reply := Done;
    }

    /** The phase is taken out first and put back when the call is refused. */
    method Approve(ghost decode: Decoder) returns (reply: Reply)
      modifies this
      ensures (Now(), reply) == Step(old(Now()), ApproveExecution, decode)
    {
      var taken := phase;
      phase := Idle;
      if !taken.AwaitingExecution? {
        phase := taken;
        return Failed(NotAwaitingExecution);
      }
      var approved := Capability(taken.request.command, taken.request.session);
      phase := Capturing(taken.request, [], false);
      reply := Issued(approved);
    }

    method RecordOutput(session: string, data: seq<Byte>, ghost decode: Decoder)
      modifies this
      ensures (Now(), Done) == Step(old(Now()), Record(session, data), decode)
    {
      if !phase.Capturing? || phase.request.session != session {
        return;
      }
      var remaining := if MAX_CAPTURE <= |phase.output| then 0 else MAX_CAPTURE - |phase.output|;
      var copied := if remaining <= |data| then remaining else |data|;
      phase := Capturing(phase.request, phase.output + data[..copied], phase.truncated || copied < |data|);
    }

    method FinishExecution(session: string, exitCode: Option<int>, failure: seq<Byte>, decode: Decoder)
      returns (reply: Reply)
      modifies this
      ensures (Now(), reply) == Step(old(Now()), Finish(session, exitCode, failure), decode)
    {
      var taken := phase;
      phase := Idle;
      if !taken.Capturing? || taken.request.session != session {
        phase := taken;
        return Failed(NotCapturingSession);
      }
      var text := SanitizeTerminalOutput(decode(taken.output + failure));
      if text.None? {
        return Panicked;
      }
      var r := taken.request;
      phase := AwaitingSharing(
        Outcome(r.command, r.session, r.target, r.directory, text.value, exitCode, taken.truncated));
      reply := Done;
    }

    method RejectResult(ghost decode: Decoder) returns (reply: Reply)
      modifies this
      ensures (Now(), reply) == Step(old(Now()), RejectSharing, decode)
    {
      if !phase.AwaitingSharing? {
        return Failed(NotAwaitingSharing);
      }
      phase := Idle;
      reply := Done;
    }

    /** Appends the result; past eight the oldest one is removed. */
    method ApproveResult(ghost decode: Decoder) returns (reply: Reply)
      requires |sharedResults| <= MAX_SHARED
      modifies this
      ensures (Now(), reply) == Step(old(Now()), ApproveSharing, decode)
      ensures |sharedResults| <= MAX_SHARED
    {
      var taken := phase;
      phase := Idle;
      if !taken.AwaitingSharing? {
        phase := taken;
        return Failed(NotAwaitingSharing);
      }
      sharedResults := sharedResults + [taken.result];
      if |sharedResults| > MAX_SHARED {
        sharedResults := sharedResults[1..];
      }
      reply := Shared(taken.result);
    }

    method CancelSession(session: string, ghost decode: Decoder)
      modifies this
      ensures (Now(), Done) == Step(old(Now()), Cancel(session), decode)
    {
      var belongs := match phase
        case Idle => false
        case AwaitingExecution(r) => r.session == session
        case Capturing(r, _, _) => r.session == session
        case AwaitingSharing(o) => o.session == session;
      if belongs {
        phase := Idle;
      }
    }
  }
}
