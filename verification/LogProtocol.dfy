/** Senders, the background writer and closers of a session log, as interleaved
    steps. The mutexes make each of a closer's two `take`s one step; the writer
    reaches the disk byte by byte. */
module LogProtocol {
  import opened Sequences
  import opened Markers
  import opened Frames

  /** Where one call of `close` is. Only the call that took the thread handle joins. */
  datatype Closer = TookSender | Joining | Returned(joined: bool)

  datatype Log<E> = Log(
    sender: bool,             // the sender is still in its mutex
    handle: bool,             // the thread handle is still in its mutex
    channel: seq<E>,
    partial: seq<Byte>,       // what is left to write of the current frame
    file: seq<Byte>,
    exited: bool,
    closers: map<nat, Closer>,
    accepted: seq<E>)         // every entry the channel took, in order

  datatype Step<E> =
    | Send(entry: E)
    | Receive | WriteByte | Exit
    | CloseBegin(id: nat) | CloseTakeHandle(id: nat) | CloseJoin(id: nat)

  function Init<E>(): Log<E> {
    Log(true, true, [], [], HEADER, false, map[], [])
  }

  predicate Enabled<E>(s: Log<E>, step: Step<E>) {
    match step
    case Send(_) => true
    case Receive => !s.exited && s.partial == [] && |s.channel| > 0
    case WriteByte => s.partial != []
    case Exit => !s.exited && s.partial == [] && |s.channel| == 0 && !s.sender
    case CloseBegin(id) => id !in s.closers
    case CloseTakeHandle(id) => id in s.closers && s.closers[id] == TookSender
    case CloseJoin(id) => id in s.closers && s.closers[id] == Joining && s.exited
  }

  function Next<E>(s: Log<E>, step: Step<E>, seal: Seal<E>): Log<E>
    requires Enabled(s, step)
  {
    match step
    case Send(e) => if s.sender then s.(channel := s.channel + [e], accepted := s.accepted + [e]) else s
    case Receive => s.(channel := s.channel[1..], partial := Frame(seal(s.channel[0])))
    case WriteByte => s.(file := s.file + [s.partial[0]], partial := s.partial[1..])
    case Exit => s.(exited := true)
    case CloseBegin(id) => s.(sender := false, closers := s.closers[id := TookSender])
    case CloseTakeHandle(id) =>
      if s.handle then s.(handle := false, closers := s.closers[id := Joining])
      else s.(closers := s.closers[id := Returned(false)])
    case CloseJoin(id) => s.(closers := s.closers[id := Returned(true)])
  }

  /** Nothing accepted is lost or reordered: what is on disk, then the frame being
      written, then the queued frames, is the whole file of the accepted entries. */
  predicate Conserves<E>(s: Log<E>, seal: Seal<E>) {
    8 <= |s.file| && s.file + (s.partial + FramesOf(s.channel, seal)) == FileOf(s.accepted, seal)
  }

  ghost predicate LogInv<E>(s: Log<E>, seal: Seal<E>) {
    && Conserves(s, seal)
    && (s.exited ==> !s.sender && |s.channel| == 0 && s.partial == [])
    && (forall id :: id in s.closers ==> !s.sender)
    && (forall id :: id in s.closers && s.closers[id] == Returned(true) ==> s.exited)
    && HandleInv(s)
  }

  /** The thread handle is in its mutex until the first close to reach it takes it. */
  ghost predicate HandleInv<E>(s: Log<E>) {
    && (s.handle ==> forall id :: id in s.closers ==> s.closers[id] == TookSender)
    && (!s.handle ==> exists id :: id in s.closers && s.closers[id] in {Joining, Returned(true)})
  }

  lemma StepConserves<E>(s: Log<E>, step: Step<E>, seal: Seal<E>)
    requires Enabled(s, step) && Conserves(s, seal)
    ensures Conserves(Next(s, step, seal), seal)
  {
    var t := Next(s, step, seal);
    match step {
      case Send(e) =>
        if s.sender {
          var one := FramesOf([e], seal);
          FramesOfAppend(s.channel, [e], seal);
          FramesOfAppend(s.accepted, [e], seal);
          Assoc(HEADER, FramesOf(s.accepted, seal), one);
          Assoc(s.file, s.partial + FramesOf(s.channel, seal), one);
          Assoc(s.partial, FramesOf(s.channel, seal), one);
        }
      case Receive =>
        assert s.partial + FramesOf(s.channel, seal) == FramesOf(s.channel, seal);
      case WriteByte =>
        assert s.file + (s.partial + FramesOf(s.channel, seal)) == t.file + (t.partial + FramesOf(t.channel, seal));
      case _ =>
    }
  }

  lemma StepKeepsInv<E>(s: Log<E>, step: Step<E>, seal: Seal<E>)
    requires Enabled(s, step) && LogInv(s, seal)
    ensures LogInv(Next(s, step, seal), seal)
  {
    hide Conserves, HandleInv;
    StepConserves(s, step, seal);
    StepKeepsHandleInv(s, step, seal);
  }

  lemma StepKeepsHandleInv<E>(s: Log<E>, step: Step<E>, seal: Seal<E>)
    requires Enabled(s, step) && HandleInv(s)
    ensures HandleInv(Next(s, step, seal))
  {
    hide Frame;
    var t := Next(s, step, seal);
    if !t.handle {
      if s.handle {
        assert t.closers[step.id] == Joining;
      } else {
        var id :| id in s.closers && s.closers[id] in {Joining, Returned(true)};
        assert id in t.closers && t.closers[id] in {Joining, Returned(true)};
      }
    }
  }

  ghost predicate Possible<E>(s: Log<E>, steps: seq<Step<E>>, seal: Seal<E>)
    decreases |steps|
  {
    steps == [] || (Enabled(s, steps[0]) && Possible(Next(s, steps[0], seal), steps[1..], seal))
  }

  ghost function RunLog<E>(s: Log<E>, steps: seq<Step<E>>, seal: Seal<E>): Log<E>
    requires Possible(s, steps, seal)
    decreases |steps|
  {
    if steps == [] then s else RunLog(Next(s, steps[0], seal), steps[1..], seal)
  }

  lemma InitInv<E>(seal: Seal<E>)
    ensures LogInv(Init<E>(), seal)
  {
    assert FramesOf<E>([], seal) == [] && HEADER + ([] + []) == HEADER + [];
  }

  lemma {:induction false} RunKeepsInv<E>(s: Log<E>, steps: seq<Step<E>>, seal: Seal<E>)
    requires LogInv(s, seal) && Possible(s, steps, seal)
    ensures LogInv(RunLog(s, steps, seal), seal)
    decreases |steps|
  {
    hide LogInv, Next, Enabled;
    if steps != [] {
      StepKeepsInv(s, steps[0], seal);
      RunKeepsInv(Next(s, steps[0], seal), steps[1..], seal);
    }
  }

  // ---- what a reader sees ------------------------------------------------

  /** At every moment of every run, even in the middle of a frame, the file decodes to
      a prefix, in order, of the entries accepted so far that can be written at all. */
  lemma AnyMomentDecodesToPrefix<E(!new)>(steps: seq<Step<E>>, s: Log<E>, seal: Seal<E>, open: Open<E>)
    requires Possible(Init<E>(), steps, seal) && s == RunLog(Init<E>(), steps, seal) && Inverse(seal, open)
    ensures 8 <= |s.file|
    ensures Decode(s.file, open) == Records(Written(s.accepted, seal)[..WholeFrames(s.accepted, |s.file| - 8, seal)])
  {
    hide Decode, RunLog, Possible;
    InitInv(seal);
    RunKeepsInv(Init<E>(), steps, seal);
    assert FileOf(s.accepted, seal)[..|s.file|] == s.file;
    TruncationDecodesToPrefix(s.accepted, |s.file|, seal, open);
  }

  /** Once a call of `close` that joined the thread has returned, the file decodes to
      everything written of what was accepted before it, and stays that way: later
      sends and closes change neither. */
  lemma CloseDrains<E(!new)>(
      before: seq<Step<E>>, after: seq<Step<E>>, id: nat, s: Log<E>, seal: Seal<E>, open: Open<E>)
    requires Possible(Init<E>(), before, seal) && s == RunLog(Init<E>(), before, seal) && Inverse(seal, open)
    requires id in s.closers && s.closers[id] == Returned(true)
    requires Possible(s, after, seal)
    ensures Decode(s.file, open) == Records(Written(s.accepted, seal))
    ensures var t := RunLog(s, after, seal); t.file == s.file && t.accepted == s.accepted
  {
    InitInv(seal);
    RunKeepsInv(Init<E>(), before, seal);
    assert s.file + ([] + FramesOf<E>([], seal)) == s.file;
    assert s.file == FileOf(s.accepted, seal);
    TruncationDecodesToPrefix(s.accepted, |s.file|, seal, open);
    ExitedIsFinal(s, after, seal);
  }

  lemma {:induction false} ExitedIsFinal<E>(s: Log<E>, steps: seq<Step<E>>, seal: Seal<E>)
    requires LogInv(s, seal) && s.exited && Possible(s, steps, seal)
    ensures var t := RunLog(s, steps, seal); t.file == s.file && t.accepted == s.accepted
    decreases |steps|
  {
    if steps != [] {
      StepKeepsInv(s, steps[0], seal);
      ExitedIsFinal(Next(s, steps[0], seal), steps[1..], seal);
    }
  }

  /** A close about to reach the thread handle gets it, and so will join, exactly when
      every close that has begun is still short of it. */
  lemma TakesTheHandleIff<E>(steps: seq<Step<E>>, s: Log<E>, id: nat, seal: Seal<E>)
    requires Possible(Init<E>(), steps, seal) && s == RunLog(Init<E>(), steps, seal)
    requires id in s.closers && s.closers[id] == TookSender
    ensures var t := Next(s, CloseTakeHandle(id), seal);
            t.closers[id]
            == if forall k :: k in s.closers ==> s.closers[k] == TookSender then Joining else Returned(false)
  {
    InitInv(seal);
    RunKeepsInv(Init<E>(), steps, seal);
  }

  /** A reader finds every entry the writer could write. */
  ghost predicate Complete<E(!new)>(s: Log<E>, seal: Seal<E>, open: Open<E>) {
    Decode(s.file, open) == Records(Written(s.accepted, seal))
  }

  /** Whenever it is looked at, the log is complete exactly when the frame in progress
      and those of the queued entries are empty. */
  lemma CompleteIff<E(!new)>(steps: seq<Step<E>>, s: Log<E>, seal: Seal<E>, open: Open<E>)
    requires Possible(Init<E>(), steps, seal) && s == RunLog(Init<E>(), steps, seal) && Inverse(seal, open)
    ensures Complete(s, seal, open) <==> s.file == FileOf(s.accepted, seal)
    ensures Complete(s, seal, open) <==> s.partial == [] && FramesOf(s.channel, seal) == []
  {
    hide RunLog, Possible, Decode, FramesOf, Written;
    AnyMomentDecodesToPrefix(steps, s, seal, open);
    InitInv(seal);
    RunKeepsInv(Init<E>(), steps, seal);
    var k := WholeFrames(s.accepted, |s.file| - 8, seal);
    AllWholeIff(s.accepted, |s.file| - 8, seal);
    assert |Written(s.accepted, seal)[..k]| == k;
    assert k == |Written(s.accepted, seal)| ==> Written(s.accepted, seal)[..k] == Written(s.accepted, seal);
    var rest := s.partial + FramesOf(s.channel, seal);
    assert |FileOf(s.accepted, seal)| == |s.file| + |rest|;
    assert rest == [] ==> s.file + rest == s.file;
  }

  /** A close that finds the handle gone returns at once, and then the log is complete
      exactly when the writer has nothing left to write. */
  lemma EarlyReturnIsCompleteIff<E(!new)>(
      steps: seq<Step<E>>, s: Log<E>, id: nat, seal: Seal<E>, open: Open<E>)
    requires Possible(Init<E>(), steps, seal) && s == RunLog(Init<E>(), steps, seal) && Inverse(seal, open)
    requires id in s.closers && s.closers[id] == TookSender && !s.handle
    ensures var t := Next(s, CloseTakeHandle(id), seal);
            && t.closers[id] == Returned(false)
            && (Complete(t, seal, open) <==> s.partial == [] && FramesOf(s.channel, seal) == [])
  {
    CompleteIff(steps, s, seal, open);
  }

  /** A close that finds the handle in place can only return by joining, and the log is
      then complete, whatever happens between. */
  lemma HandleMeansComplete<E(!new)>(
      before: seq<Step<E>>, s: Log<E>, id: nat, after: seq<Step<E>>, t: Log<E>, seal: Seal<E>, open: Open<E>)
    requires Possible(Init<E>(), before, seal) && s == RunLog(Init<E>(), before, seal) && Inverse(seal, open)
    requires id in s.closers && s.closers[id] == TookSender && s.handle
    requires Possible(Next(s, CloseTakeHandle(id), seal), after, seal)
    requires t == RunLog(Next(s, CloseTakeHandle(id), seal), after, seal)
    ensures id in t.closers && t.closers[id] in {Joining, Returned(true)} && t.accepted == s.accepted
    ensures t.closers[id].Returned? ==> Complete(t, seal, open)
  {
    hide RunLog, Possible, FramesOf, Written, Decode;
    InitInv(seal);
    RunKeepsInv(Init<E>(), before, seal);
    StepKeepsInv(s, CloseTakeHandle(id), seal);
    var u := Next(s, CloseTakeHandle(id), seal);
    JoinersJoin(u, id, after, seal);
    RunKeepsInv(u, after, seal);
    if t.closers[id].Returned? {
      ExitedIsComplete(t, seal, open);
    }
  }

  lemma {:induction false} JoinersJoin<E>(s: Log<E>, id: nat, steps: seq<Step<E>>, seal: Seal<E>)
    requires Possible(s, steps, seal) && !s.sender && id in s.closers && s.closers[id] in {Joining, Returned(true)}
    ensures var t := RunLog(s, steps, seal);
            id in t.closers && t.closers[id] in {Joining, Returned(true)} && t.accepted == s.accepted
    decreases |steps|
  {
    hide Frame;
    if steps != [] {
      JoinersJoin(Next(s, steps[0], seal), id, steps[1..], seal);
    }
  }

  lemma ExitedIsComplete<E(!new)>(s: Log<E>, seal: Seal<E>, open: Open<E>)
    requires LogInv(s, seal) && s.exited && Inverse(seal, open)
    ensures Complete(s, seal, open)
  {
    hide Written, Decode;
    assert s.file + ([] + FramesOf<E>([], seal)) == s.file;
    TruncationDecodesToPrefix(s.accepted, |s.file|, seal, open);
  }

  /** For the caller: closing is safe when calls of `close` do not overlap. The only
      close of a log has joined when it returns; and once some close has returned while
      none waits in a join, the log is complete. */
  lemma LoneCloseDrains<E(!new)>(steps: seq<Step<E>>, s: Log<E>, id: nat, seal: Seal<E>, open: Open<E>)
    requires Possible(Init<E>(), steps, seal) && s == RunLog(Init<E>(), steps, seal) && Inverse(seal, open)
    requires id in s.closers && s.closers[id].Returned?
    requires forall k :: k in s.closers ==> s.closers[k] != Joining
    ensures Complete(s, seal, open)
    ensures s.closers.Keys == {id} ==> s.closers[id] == Returned(true)
  {
    hide RunLog, Possible, FramesOf, Written, Decode, Conserves;
    InitInv(seal);
    RunKeepsInv(Init<E>(), steps, seal);
    assert s.closers[id] != TookSender;
    var k :| k in s.closers && s.closers[k] in {Joining, Returned(true)};
    assert s.closers.Keys == {id} ==> k in s.closers.Keys;
    ExitedIsComplete(s, seal, open);
  }

  /** A second, concurrent call of `close` finds both mutexes empty and returns at
      once, while an accepted entry is still not on disk. */
  lemma SecondCloseMayReturnEarly<E>(e: E, seal: Seal<E>)
    ensures var steps := [Send(e), CloseBegin(0), CloseBegin(1), CloseTakeHandle(0), CloseTakeHandle(1)];
            && Possible(Init(), steps, seal)
            && var s := RunLog(Init(), steps, seal);
               1 in s.closers && s.closers[1] == Returned(false) && s.accepted == [e] && s.file == HEADER
  {
    var s0: Log<E> := Init();
    var s1 := Next(s0, Send(e), seal);
    var s2 := Next(s1, CloseBegin(0), seal);
    var s3 := Next(s2, CloseBegin(1), seal);
    var s4 := Next(s3, CloseTakeHandle(0), seal);
    var s5 := Next(s4, CloseTakeHandle(1), seal);
    StepFirst(s4, CloseTakeHandle(1), [], seal);
    StepFirst(s3, CloseTakeHandle(0), [CloseTakeHandle(1)], seal);
    StepFirst(s2, CloseBegin(1), [CloseTakeHandle(0), CloseTakeHandle(1)], seal);
    StepFirst(s1, CloseBegin(0), [CloseBegin(1), CloseTakeHandle(0), CloseTakeHandle(1)], seal);
    StepFirst(s0, Send(e), [CloseBegin(0), CloseBegin(1), CloseTakeHandle(0), CloseTakeHandle(1)], seal);
    assert s5.closers[1] == Returned(false);
  }

  lemma StepFirst<E>(s: Log<E>, step: Step<E>, rest: seq<Step<E>>, seal: Seal<E>)
    requires Enabled(s, step) && Possible(Next(s, step, seal), rest, seal)
    ensures Possible(s, [step] + rest, seal)
    ensures RunLog(s, [step] + rest, seal) == RunLog(Next(s, step, seal), rest, seal)
  {
    assert ([step] + rest)[1..] == rest;
  }

  // ---- progress ----------------------------------------------------------

  function QueueWork<E>(channel: seq<E>, seal: Seal<E>): nat {
    if channel == [] then 0 else 1 + |Frame(seal(channel[0]))| + QueueWork(channel[1..], seal)
  }

  /** Writer steps still to go once the sender is gone. */
  function Work<E>(s: Log<E>, seal: Seal<E>): nat {
    (if s.exited then 0 else 1) + |s.partial| + QueueWork(s.channel, seal)
  }

  /** What the writer does next. */
  function WriterStep<E>(s: Log<E>): Step<E> {
    if s.partial != [] then WriteByte else if |s.channel| > 0 then Receive else Exit
  }

  /** After the sender is taken the writer is never stuck, each of its steps is one
      less to go, and it ends with every accepted entry on disk. */
  function Drain<E>(s: Log<E>, seal: Seal<E>): (t: Log<E>)
    requires !s.sender && (s.exited ==> s.partial == [] && |s.channel| == 0) && Conserves(s, seal)
    ensures t.exited && t.accepted == s.accepted && t.file == FileOf(s.accepted, seal)
    decreases Work(s, seal)
  {
    if s.exited then
      assert s.file + ([] + []) == s.file;
      s
    else
      StepConserves(s, WriterStep(s), seal);
      Drain(Next(s, WriterStep(s), seal), seal)
  }
}
