/** The session-recovery replay log: a table of events inserted in any order and
    folded, per session, in (timestamp, sequence number) order. */
module Replay {
  import opened Sequences

  datatype Event = Event(kind: string, op: Option<string>)

  datatype Row = Row(session: string, ts: int, seqNo: int, event: Event)

  const TWO_63: int := 0x8000_0000_0000_0000
  const TWO_64: int := 0x1_0000_0000_0000_0000

  /** A sequence number is stored as a signed 64-bit integer. */
  function Wrap(n: int): int {
    if n >= TWO_63 then n - TWO_64 else n
  }

  /** So stored order follows counter order except across 2^63. */
  lemma WrapKeepsOrderIff(a: int, b: int)
    requires 0 <= a < b < TWO_64
    ensures Wrap(a) < Wrap(b) <==> !(a < TWO_63 <= b)
  {
  }

  /** Consecutive counters stored in the wrong order. */
  lemma WrapTurnsOver()
    ensures Wrap(TWO_63 - 1) == TWO_63 - 1 && Wrap(TWO_63) == -TWO_63
    ensures Wrap(TWO_63 - 1) > Wrap(TWO_63)
  {
  }

  // ---- folding -----------------------------------------------------------

  function Apply(ops: seq<string>, e: Event): seq<string> {
    if e.kind == "op" || e.kind == "context" then
      (if e.op.Some? then ops + [e.op.value] else ops)
    else if e.kind == "pop" then
      (if ops == [] then ops else ops[..|ops| - 1])
    else if e.kind == "reset" then []
    else ops
  }

  function Fold(ops: seq<string>, events: seq<Event>): seq<string>
    decreases |events|
  {
    if events == [] then ops else Fold(Apply(ops, events[0]), events[1..])
  }

  method FoldReplayEvents(events: seq<Event>) returns (ops: seq<string>)
    ensures ops == Fold([], events)
  {
    ops := [];
    for i := 0 to |events|
      invariant Fold(ops, events[i..]) == Fold([], events)
    {
      ghost var rest := events[i..];
      assert rest[0] == events[i] && rest[1..] == events[i + 1..];
      var e := events[i];
      if e.kind == "op" || e.kind == "context" {
        if e.op.Some? {
          ops := ops + [e.op.value];
        }
      } else if e.kind == "pop" {
        if |ops| > 0 {
          ops := ops[..|ops| - 1];
        }
      } else if e.kind == "reset" {
        ops := [];
      }
    }
  }

  lemma {:induction false} FoldAppend(ops: seq<string>, a: seq<Event>, b: seq<Event>)
    ensures Fold(ops, a + b) == Fold(Fold(ops, a), b)
    decreases |a|
  {
    if a == [] {
      assert a + b == b;
    } else {
      assert (a + b)[1..] == a[1..] + b;
      FoldAppend(Apply(ops, a[0]), a[1..], b);
    }
  }

  /** Nothing before a reset matters. */
  lemma ResetForgets(ops: seq<string>, a: seq<Event>, reset: Event, b: seq<Event>)
    requires reset.kind == "reset"
    ensures Fold(ops, a + [reset] + b) == Fold([], b)
  {
    FoldAppend(ops, a + [reset], b);
    FoldAppend(ops, a, [reset]);
    assert Fold(Fold(ops, a), [reset]) == Fold([], []);
  }

  /** What the last event does: an operation or a context enters with its text if it has
      one, a pop leaves the innermost, a reset leaves all, anything else does nothing. */
  lemma LastEvent(ops: seq<string>, a: seq<Event>, e: Event)
    ensures var before := Fold(ops, a);
            Fold(ops, a + [e])
            == if e.kind in {"op", "context"} then (if e.op.Some? then before + [e.op.value] else before)
               else if e.kind == "pop" then (if before == [] then [] else before[..|before| - 1])
               else if e.kind == "reset" then [] else before
  {
    hide Fold;
    FoldAppend(ops, a, [e]);
    FoldOne(Fold(ops, a), e);
  }

  /** Events that never pop below the stack they started on. */
  predicate StaysAbove(depth: nat, events: seq<Event>)
    decreases |events|
  {
    events == [] ||
    var e := events[0];
    if e.kind == "op" || e.kind == "context" then StaysAbove(if e.op.Some? then depth + 1 else depth, events[1..])
    else if e.kind == "pop" then depth > 0 && StaysAbove(depth - 1, events[1..])
    else e.kind != "reset" && StaysAbove(depth, events[1..])
  }

  lemma {:induction false} FoldAbove(base: seq<string>, top: seq<string>, events: seq<Event>)
    requires StaysAbove(|top|, events)
    ensures Fold(base + top, events) == base + Fold(top, events)
    decreases |events|
  {
    if events != [] {
      var e := events[0];
      var next := Apply(top, e);
      assert Apply(base + top, e) == base + next by {
        if e.op.Some? { Assoc(base, top, [e.op.value]); }
        if e.kind == "pop" { assert (base + top)[..|base + top| - 1] == base + top[..|top| - 1]; }
      }
      FoldAbove(base, next, events[1..]);
    }
  }

  /** Entering a context and leaving it again cancels, with any balanced events inside. */
  lemma ContextCancels(a: seq<Event>, push: Event, inside: seq<Event>, pop: Event, b: seq<Event>)
    requires (push.kind == "op" || push.kind == "context") && push.op.Some? && pop.kind == "pop"
    requires StaysAbove(0, inside) && Fold([], inside) == []
    ensures Fold([], a + ([push] + inside + [pop]) + b) == Fold([], a + b)
  {
    var before := Fold([], a);
    var entered := before + [push.op.value];
    FoldAppend([], a + ([push] + inside + [pop]), b);
    FoldAppend([], a, [push] + inside + [pop]);
    FoldAppend(before, [push] + inside, [pop]);
    FoldAppend(before, [push], inside);
    assert Fold(before, [push]) == Fold(entered, []);
    FoldAbove(entered, [], inside);
    assert entered + [] == entered;
    assert Fold(entered, [pop]) == Fold(before, []);
    FoldAppend([], a, b);
  }

  // ---- ordering ----------------------------------------------------------

  predicate Before(a: Row, b: Row) {
    a.ts < b.ts || (a.ts == b.ts && a.seqNo < b.seqNo)
  }

  predicate SameKey(a: Row, b: Row) {
    a.ts == b.ts && a.seqNo == b.seqNo
  }

  predicate Sorted(rows: seq<Row>) {
    forall i, j :: 0 <= i < j < |rows| ==> !Before(rows[j], rows[i])
  }

  /** Rows that share a key are equal: true of distinct keys, and of repeated rows. */
  predicate KeysDecide(rows: seq<Row>) {
    forall r, q :: r in rows && q in rows && SameKey(r, q) ==> r == q
  }

  /** An answer of `ORDER BY ts, seq` over `rows`: any sorted arrangement of them. */
  predicate IsOrdering(list: seq<Row>, rows: seq<Row>) {
    Sorted(list) && multiset(list) == multiset(rows)
  }

  lemma SameRows(a: seq<Row>, b: seq<Row>)
    requires multiset(a) == multiset(b)
    ensures forall r :: r in a <==> r in b
    ensures KeysDecide(a) == KeysDecide(b)
  {
    assert forall r :: r in b <==> r in multiset(b);
    assert forall r :: r in a <==> r in multiset(a);
  }

  lemma FirstIsLeast(rows: seq<Row>, r: Row)
    requires Sorted(rows) && r in rows
    ensures !Before(r, rows[0])
  {
    var i :| 0 <= i < |rows| && rows[i] == r;
  }

  lemma KeysDecideTail(rows: seq<Row>)
    requires rows != [] && KeysDecide(rows)
    ensures KeysDecide(rows[1..]) && multiset(rows[1..]) == multiset(rows) - multiset{rows[0]}
  {
    assert rows == [rows[0]] + rows[1..];
  }

  /** When keys decide rows there is only one ordering. */
  lemma {:induction false} OrderingIsUnique(a: seq<Row>, b: seq<Row>)
    requires Sorted(a) && Sorted(b) && KeysDecide(a) && multiset(a) == multiset(b)
    ensures a == b
    decreases |a|
  {
    hide Sorted, KeysDecide;
    assert |multiset(a)| == |a| && |multiset(b)| == |b|;
    if a != [] {
      SameFirst(a, b);
      SameRows(a, b);
      KeysDecideTail(a);
      KeysDecideTail(b);
      SortedTail(a);
      SortedTail(b);
      OrderingIsUnique(a[1..], b[1..]);
      assert a == [a[0]] + a[1..] && b == [b[0]] + b[1..];
    }
  }

  /** An ordering runs by timestamp, and by sequence number where timestamps are equal. */
  lemma OrderingRunsByTime(list: seq<Row>, i: nat, j: nat)
    requires Sorted(list) && i < j < |list|
    ensures list[i].ts <= list[j].ts && (list[i].ts == list[j].ts ==> list[i].seqNo <= list[j].seqNo)
  {
  }

  lemma SortedTail(rows: seq<Row>)
    requires Sorted(rows) && rows != []
    ensures Sorted(rows[1..])
  {
  }

  lemma SameFirst(a: seq<Row>, b: seq<Row>)
    requires Sorted(a) && Sorted(b) && KeysDecide(a) && multiset(a) == multiset(b) && a != [] && b != []
    ensures a[0] == b[0]
  {
    hide Sorted;
    assert a[0] in multiset(b) && b[0] in multiset(a);
    FirstIsLeast(a, b[0]);
    FirstIsLeast(b, a[0]);
    assert SameKey(a[0], b[0]);
  }

  /** Where a row goes in a sorted list: after any equal keys. */
  function Position(rows: seq<Row>, r: Row, i: nat): (p: nat)
    requires i <= |rows| && forall j :: i <= j < |rows| ==> Before(r, rows[j])
    ensures p <= |rows| && forall j :: p <= j < |rows| ==> Before(r, rows[j])
    ensures p > 0 ==> !Before(r, rows[p - 1])
  {
    if i > 0 && Before(r, rows[i - 1]) then Position(rows, r, i - 1) else i
  }

  lemma InsertedIsSorted(rows: seq<Row>, r: Row, i: nat)
    requires Sorted(rows) && i <= |rows|
    requires forall j :: i <= j < |rows| ==> Before(r, rows[j])
    requires i > 0 ==> !Before(r, rows[i - 1])
    ensures Sorted(rows[..i] + [r] + rows[i..])
  {
    var out := rows[..i] + [r] + rows[i..];
    forall j | 0 <= j < i ensures !Before(r, rows[j]) {
      if j < i - 1 { assert !Before(rows[i - 1], rows[j]); }
    }
    forall j, k | 0 <= j < k < |out| ensures !Before(out[k], out[j]) {
      var x, y := if j <= i then j else j - 1, if k <= i then k else k - 1;
      if j != i && k != i { assert out[j] == rows[x] && out[k] == rows[y]; }
    }
  }

  function PutIn(rows: seq<Row>, r: Row): (out: seq<Row>)
    requires Sorted(rows)
    ensures Sorted(out) && multiset(out) == multiset(rows) + multiset{r}
  {
    var p := Position(rows, r, |rows|);
    InsertedIsSorted(rows, r, p);
    assert rows == rows[..p] + rows[p..];
    rows[..p] + [r] + rows[p..]
  }

  /** One answer the database may give; there always is one. */
  function SortedRows(rows: seq<Row>): (list: seq<Row>)
    ensures Sorted(list) && multiset(list) == multiset(rows)
    decreases |rows|
  {
    if rows == [] then [] else
      var last := |rows| - 1;
      assert rows == rows[..last] + [rows[last]];
      PutIn(SortedRows(rows[..last]), rows[last])
  }

  /** Exchanging two rows with the same key keeps an ordering one. */
  lemma ExchangedIsOrdering(list: seq<Row>, rows: seq<Row>, i: nat, j: nat)
    requires IsOrdering(list, rows) && i < |list| && j < |list| && SameKey(list[i], list[j])
    ensures IsOrdering(list[i := list[j]][j := list[i]], rows)
  {
    var other := list[i := list[j]][j := list[i]];
    assert forall k :: 0 <= k < |list| ==> SameKey(other[k], list[k]);
  }

  /** The answer of the ordered query is determined exactly when no two different rows
      share a key. */
  lemma OrderingsAgreeIff(rows: seq<Row>)
    ensures (forall la, lb :: IsOrdering(la, rows) && IsOrdering(lb, rows) ==> la == lb) <==> KeysDecide(rows)
  {
    hide IsOrdering, KeysDecide;
    if KeysDecide(rows) {
      forall la, lb | IsOrdering(la, rows) && IsOrdering(lb, rows) ensures la == lb {
        OrderingsAgree(rows, la, lb);
      }
    } else {
      var la, lb := TwoOrderings(rows);
      assert IsOrdering(la, rows) && IsOrdering(lb, rows) && la != lb;
    }
  }

  lemma OrderingsAgree(rows: seq<Row>, la: seq<Row>, lb: seq<Row>)
    requires KeysDecide(rows) && IsOrdering(la, rows) && IsOrdering(lb, rows)
    ensures la == lb
  {
    hide Sorted, KeysDecide;
    SameRows(la, rows);
    OrderingIsUnique(la, lb);
  }

  lemma TwoOrderings(rows: seq<Row>) returns (la: seq<Row>, lb: seq<Row>)
    requires !KeysDecide(rows)
    ensures IsOrdering(la, rows) && IsOrdering(lb, rows) && la != lb
  {
    hide Sorted, SortedRows, SameKey;
    var r, q :| r in rows && q in rows && SameKey(r, q) && r != q;
    la := SortedRows(rows);
    SameRows(la, rows);
    var i :| 0 <= i < |la| && la[i] == r;
    var j :| 0 <= j < |la| && la[j] == q;
    ExchangedIsOrdering(la, rows, i, j);
    lb := la[i := la[j]][j := la[i]];
    assert lb[i] == q;
  }

  function EventsOf(rows: seq<Row>): (events: seq<Event>)
    ensures |events| == |rows|
  {
    seq(|rows|, i requires 0 <= i < |rows| => rows[i].event)
  }

  // ---- the table ---------------------------------------------------------

  function RowsOf(rows: seq<Row>, session: string): (own: seq<Row>)
    ensures forall r :: r in own <==> r in rows && r.session == session
  {
    if rows == [] then []
    else (if rows[0].session == session then [rows[0]] else []) + RowsOf(rows[1..], session)
  }

  /** The sanitizer of free-form text, which may refuse it. */
  type Cleaner = string -> Option<string>

  datatype Call =
    | RecordEvent(session: string, ts: int, seqNo: int, kind: string, op: Option<string>)
    | ClearStream(session: string)

  /** The row a call inserts, if its text is accepted. */
  function Inserted(c: Call, clean: Cleaner): seq<Row>
    requires c.RecordEvent?
  {
    if c.op.None? then [Row(c.session, c.ts, Wrap(c.seqNo), Event(c.kind, None))]
    else match clean(c.op.value)
         case None => []
         case Some(text) => [Row(c.session, c.ts, Wrap(c.seqNo), Event(c.kind, Some(text)))]
  }

  function Deleted(rows: seq<Row>, session: string): (rest: seq<Row>)
    ensures forall r :: r in rest <==> r in rows && r.session != session
  {
    if rows == [] then []
    else (if rows[0].session == session then [] else [rows[0]]) + Deleted(rows[1..], session)
  }

  function Step(rows: seq<Row>, c: Call, clean: Cleaner): seq<Row> {
    match c
    case RecordEvent(_, _, _, _, _) => rows + Inserted(c, clean)
    case ClearStream(session) => Deleted(rows, session)
  }

  function Run(rows: seq<Row>, calls: seq<Call>, clean: Cleaner): seq<Row>
    decreases |calls|
  {
    if calls == [] then rows else Run(Step(rows, calls[0], clean), calls[1..], clean)
  }

  /** The calls that concern one session. */
  function CallsOf(calls: seq<Call>, session: string): seq<Call> {
    if calls == [] then []
    else (if calls[0].session == session then [calls[0]] else []) + CallsOf(calls[1..], session)
  }

  lemma {:induction false} RowsOfAppend(a: seq<Row>, b: seq<Row>, session: string)
    ensures RowsOf(a + b, session) == RowsOf(a, session) + RowsOf(b, session)
  {
    if a == [] {
      assert a + b == b;
    } else {
      assert (a + b)[1..] == a[1..] + b;
      RowsOfAppend(a[1..], b, session);
    }
  }

  lemma {:induction false} DeletedKeepsOthers(rows: seq<Row>, gone: string, session: string)
    ensures RowsOf(Deleted(rows, gone), session) == if gone == session then [] else RowsOf(rows, session)
  {
    if rows != [] {
      DeletedKeepsOthers(rows[1..], gone, session);
      var kept := if rows[0].session == gone then [] else [rows[0]];
      RowsOfAppend(kept, Deleted(rows[1..], gone), session);
      assert RowsOf([rows[0]], session) == (if rows[0].session == session then [rows[0]] else []) + RowsOf([], session);
    }
  }

  lemma InsertedIsOwn(c: Call, clean: Cleaner, session: string)
    requires c.RecordEvent?
    ensures RowsOf(Inserted(c, clean), session) == if c.session == session then Inserted(c, clean) else []
  {
    var added := Inserted(c, clean);
    if added != [] {
      assert added[1..] == [] && added == [added[0]];
      assert RowsOf(added, session) == (if added[0].session == session then [added[0]] else []) + RowsOf([], session);
    }
  }

  /** One call acts on a session's rows alone, or not on them at all. */
  lemma StepIsPerSession(rows: seq<Row>, c: Call, clean: Cleaner, session: string)
    ensures RowsOf(Step(rows, c, clean), session)
            == if c.session == session then Step(RowsOf(rows, session), c, clean) else RowsOf(rows, session)
  {
    match c {
      case RecordEvent(_, _, _, _, _) =>
        RowsOfAppend(rows, Inserted(c, clean), session);
        InsertedIsOwn(c, clean, session);
        assert RowsOf(rows, session) + [] == RowsOf(rows, session);
      case ClearStream(gone) =>
        DeletedKeepsOthers(rows, gone, session);
        if gone == session { DeletesOwn(rows, session); }
    }
  }

  lemma {:induction false} DeletesOwn(rows: seq<Row>, session: string)
    ensures Deleted(RowsOf(rows, session), session) == []
  {
    if rows != [] {
      DeletesOwn(rows[1..], session);
      if rows[0].session == session {
        assert RowsOf(rows, session)[1..] == RowsOf(rows[1..], session);
      } else {
        assert RowsOf(rows, session) == RowsOf(rows[1..], session);
      }
    }
  }

  /** A session's rows after any run are those of its own calls run alone: inserts and
      clears of other sessions, however interleaved, do not matter. */
  lemma {:induction false} SessionsAreIsolated(rows: seq<Row>, calls: seq<Call>, clean: Cleaner, session: string)
    ensures RowsOf(Run(rows, calls, clean), session) == Run(RowsOf(rows, session), CallsOf(calls, session), clean)
    decreases |calls|
  {
    if calls != [] {
      StepIsPerSession(rows, calls[0], clean, session);
      SessionsAreIsolated(Step(rows, calls[0], clean), calls[1..], clean, session);
      var own := CallsOf(calls[1..], session);
      assert ([calls[0]] + own)[1..] == own && [] + own == own;
    }
  }

  predicate InsertsOnly(calls: seq<Call>) {
    forall c :: c in calls ==> c.RecordEvent?
  }

  /** What inserting calls add, call by call. */
  function InsertedAll(calls: seq<Call>, clean: Cleaner): seq<Row>
    requires InsertsOnly(calls)
  {
    if calls == [] then [] else Inserted(calls[0], clean) + InsertedAll(calls[1..], clean)
  }

  lemma {:induction false} InsertsAppend(rows: seq<Row>, calls: seq<Call>, clean: Cleaner)
    requires InsertsOnly(calls)
    ensures Run(rows, calls, clean) == rows + InsertedAll(calls, clean)
    decreases |calls|
  {
    if calls == [] {
      assert rows + [] == rows;
    } else {
      InsertsAppend(rows + Inserted(calls[0], clean), calls[1..], clean);
      Assoc(rows, Inserted(calls[0], clean), InsertedAll(calls[1..], clean));
    }
  }

  lemma TakeOut<T>(s: seq<T>, i: nat)
    requires i < |s|
    ensures multiset(s) == multiset(s[..i] + s[i + 1..]) + multiset{s[i]}
  {
    assert s == s[..i] + [s[i]] + s[i + 1..];
  }

  lemma RestPermutes<T>(a: seq<T>, b: seq<T>, i: nat)
    requires multiset(a) == multiset(b) && a != [] && i < |b| && b[i] == a[0]
    ensures multiset(a[1..]) == multiset(b[..i] + b[i + 1..])
  {
    var x, y := multiset(a[1..]), multiset(b[..i] + b[i + 1..]);
    TakeOut(a, 0);
    TakeOut(b, i);
    assert a[..0] + a[1..] == a[1..];
    TakeBack(x, y, a[0]);
  }

  lemma TakeBack<T>(x: multiset<T>, y: multiset<T>, e: T)
    requires x + multiset{e} == y + multiset{e}
    ensures x == y
  {
    assert x == (x + multiset{e}) - multiset{e} && y == (y + multiset{e}) - multiset{e};
  }

  lemma SplitAround<T>(s: seq<T>, i: nat)
    requires i < |s|
    ensures s == s[..i] + [s[i]] + s[i + 1..]
    ensures forall d :: d in s[..i] + s[i + 1..] ==> d in s
  {
  }

  lemma InsertedAllMiddle(pre: seq<Call>, c: Call, post: seq<Call>, clean: Cleaner)
    requires InsertsOnly(pre) && c.RecordEvent? && InsertsOnly(post)
    ensures InsertsOnly(pre + [c] + post) && InsertsOnly(pre + post)
    ensures multiset(InsertedAll(pre + [c] + post, clean))
            == multiset(InsertedAll(pre + post, clean)) + multiset(Inserted(c, clean))
  {
    hide InsertedAll, Inserted;
    InsertedAllOne(c, clean);
    InsertedAllAppend(pre, post, clean);
    InsertedAllAppend(pre, [c], clean);
    InsertedAllAppend(pre + [c], post, clean);
  }

  lemma InsertedAllOne(c: Call, clean: Cleaner)
    requires c.RecordEvent?
    ensures InsertsOnly([c]) && InsertedAll([c], clean) == Inserted(c, clean)
  {
    assert [c][1..] == [] && Inserted(c, clean) + [] == Inserted(c, clean);
  }

  lemma {:induction false} InsertedAllPermutes(a: seq<Call>, b: seq<Call>, clean: Cleaner)
    requires multiset(a) == multiset(b)
    requires InsertsOnly(a) && InsertsOnly(b)
    ensures multiset(InsertedAll(a, clean)) == multiset(InsertedAll(b, clean))
    decreases |a|
  {
    hide InsertedAll, Inserted;
    assert |multiset(a)| == |a| && |multiset(b)| == |b|;
    if a == [] {
      assert b == [];
    } else {
      var c := a[0];
      assert c in multiset(b);
      var i :| 0 <= i < |b| && b[i] == c;
      var rest := b[..i] + b[i + 1..];
      RestPermutes(a, b, i);
      SplitAround(a, 0);
      SplitAround(b, i);
      assert a[..0] == [] && [] + a[1..] == a[1..];
      InsertedAllPermutes(a[1..], rest, clean);
      InsertedAllMiddle([], c, a[1..], clean);
      InsertedAllMiddle(b[..i], c, b[i + 1..], clean);
    }
  }

  lemma {:induction false} InsertedAllAppend(a: seq<Call>, b: seq<Call>, clean: Cleaner)
    requires InsertsOnly(a) && InsertsOnly(b)
    ensures InsertsOnly(a + b)
    ensures InsertedAll(a + b, clean) == InsertedAll(a, clean) + InsertedAll(b, clean)
  {
    if a == [] {
      assert a + b == b;
    } else {
      assert (a + b)[1..] == a[1..] + b;
      InsertedAllAppend(a[1..], b, clean);
    }
  }

  /** The calls after the last clear. */
  function SinceClear(calls: seq<Call>): (rest: seq<Call>)
    ensures InsertsOnly(rest)
  {
    if InsertsOnly(calls) then calls else SinceClear(calls[1..])
  }

  /** On a session's own rows only its calls since its last clear count. */
  lemma {:induction false} OwnRun(rows: seq<Row>, calls: seq<Call>, clean: Cleaner, session: string)
    requires RowsOf(rows, session) == rows && forall c :: c in calls ==> c.session == session
    ensures Run(rows, calls, clean)
            == (if InsertsOnly(calls) then rows else []) + InsertedAll(SinceClear(calls), clean)
    decreases |calls|
  {
    hide Inserted, InsertedAll, RowsOf, Deleted;
    if InsertsOnly(calls) {
      InsertsAppend(rows, calls, clean);
    } else {
      var c, rest := calls[0], calls[1..];
      match c {
        case RecordEvent(_, _, _, _, _) =>
          RowsOfAppend(rows, Inserted(c, clean), session);
          InsertedIsOwn(c, clean, session);
          assert calls == [c] + rest;
          OwnRun(rows + Inserted(c, clean), rest, clean, session);
        case ClearStream(_) =>
          DeletesOwn(rows, session);
          NoRows(session);
          OwnRun([], rest, clean, session);
          if InsertsOnly(rest) { assert SinceClear(calls) == rest; }
      }
    }
  }

  lemma {:induction false} CallsOfAreOwn(calls: seq<Call>, session: string)
    ensures forall c :: c in CallsOf(calls, session) ==> c.session == session
  {
    if calls != [] {
      CallsOfAreOwn(calls[1..], session);
    }
  }

  /** The rows of a session after any run from an empty table. */
  lemma RowsOfRun(calls: seq<Call>, clean: Cleaner, session: string)
    ensures RowsOf(Run([], calls, clean), session) == InsertedAll(SinceClear(CallsOf(calls, session)), clean)
  {
    hide Run, CallsOf, InsertedAll, RowsOf, SinceClear;
    SessionsAreIsolated([], calls, clean, session);
    NoRows(session);
    CallsOfAreOwn(calls, session);
    OwnRun([], CallsOf(calls, session), clean, session);
    var inserted := InsertedAll(SinceClear(CallsOf(calls, session)), clean);
    assert [] + inserted == inserted;
  }

  /** Two runs whose inserts for a session since it was last cleared are the same in
      any order, whatever else they do to it or to other sessions, replay the same
      operations for it, for every answer the ordered query may give, as long as the
      session's keys decide its rows. */
  lemma ReplayIsOrderIndependent(
      a: seq<Call>, b: seq<Call>, clean: Cleaner, session: string, la: seq<Row>, lb: seq<Row>)
    requires multiset(SinceClear(CallsOf(a, session))) == multiset(SinceClear(CallsOf(b, session)))
    requires IsOrdering(la, RowsOf(Run([], a, clean), session)) && IsOrdering(lb, RowsOf(Run([], b, clean), session))
    requires KeysDecide(RowsOf(Run([], a, clean), session))
    ensures Fold([], EventsOf(la)) == Fold([], EventsOf(lb))
  {
    hide Sorted, KeysDecide, Run, RowsOf, CallsOf, InsertedAll, SinceClear;
    RowsOfRun(a, clean, session);
    RowsOfRun(b, clean, session);
    InsertedAllPermutes(SinceClear(CallsOf(a, session)), SinceClear(CallsOf(b, session)), clean);
    SameRows(RowsOf(Run([], a, clean), session), la);
    OrderingIsUnique(la, lb);
  }

  /** From the call to the answer: two operations recorded for a session, in whichever
      order, are replayed cleaned and by time, then number; one whose text is refused is
      not there. */
  lemma RecordedIsReplayed(
      session: string, x: string, y: string, tx: int, nx: int, ty: int, ny: int, clean: Cleaner, list: seq<Row>)
    requires 0 <= nx < TWO_63 && 0 <= ny < TWO_63 && (tx < ty || (tx == ty && nx < ny))
    requires var later := RecordEvent(session, ty, ny, "op", Some(y));
             var earlier := RecordEvent(session, tx, nx, "op", Some(x));
             IsOrdering(list, RowsOf(Run([], [later, earlier], clean), session))
    ensures Fold([], EventsOf(list))
            == (if clean(x).Some? then [clean(x).value] else []) + (if clean(y).Some? then [clean(y).value] else [])
  {
    hide Run, RowsOf, Inserted, Sorted, Fold, KeysDecide, EventsOf;
    var later := RecordEvent(session, ty, ny, "op", Some(y));
    var earlier := RecordEvent(session, tx, nx, "op", Some(x));
    var rx, ry := Inserted(earlier, clean), Inserted(later, clean);
    InsertedOp(session, tx, nx, x, clean);
    InsertedOp(session, ty, ny, y, clean);
    TwoInserts(later, earlier, clean, session, ry, rx);
    assert multiset(ry + rx) == multiset(rx + ry);
    TwoInOrder(rx, ry);
    SameRows(rx + ry, list);
    OrderingIsUnique(list, rx + ry);
    EventsOfTwo(rx, ry);
  }

  lemma InsertedOp(session: string, ts: int, n: int, text: string, clean: Cleaner)
    requires 0 <= n < TWO_63
    ensures var r := Inserted(RecordEvent(session, ts, n, "op", Some(text)), clean);
            if clean(text).None? then r == [] else r == [Row(session, ts, n, Event("op", clean(text)))]
  {
  }

  lemma TwoInOrder(a: seq<Row>, b: seq<Row>)
    requires |a| <= 1 && |b| <= 1 && (a != [] && b != [] ==> Before(a[0], b[0]))
    ensures Sorted(a + b) && KeysDecide(a + b)
  {
  }

  lemma TwoInserts(c: Call, d: Call, clean: Cleaner, session: string, rc: seq<Row>, rd: seq<Row>)
    requires c.RecordEvent? && d.RecordEvent? && c.session == session && d.session == session
    requires rc == Inserted(c, clean) && rd == Inserted(d, clean)
    ensures RowsOf(Run([], [c, d], clean), session) == rc + rd
  {
    hide Inserted, RowsOf;
    InsertedIsOwn(c, clean, session);
    InsertedIsOwn(d, clean, session);
    RowsOfAppend(rc, rd, session);
    assert [c, d][1..] == [d] && [d][1..] == [];
    assert Run([], [c, d], clean) == Run([] + rc, [d], clean) == [] + rc + rd;
    assert [] + rc == rc;
  }

  lemma EventsOfTwo(rx: seq<Row>, ry: seq<Row>)
    requires |rx| <= 1 && |ry| <= 1
    requires forall r :: r in rx + ry ==> r.event.kind == "op" && r.event.op.Some?
    ensures Fold([], EventsOf(rx + ry))
            == (if rx == [] then [] else [rx[0].event.op.value]) + (if ry == [] then [] else [ry[0].event.op.value])
  {
    assert EventsOf(rx + ry) == EventsOf(rx) + EventsOf(ry);
    FoldAppend([], EventsOf(rx), EventsOf(ry));
    OneOp([], rx);
    OneOp(Fold([], EventsOf(rx)), ry);
  }

  lemma OneOp(ops: seq<string>, r: seq<Row>)
    requires |r| <= 1 && (r != [] ==> r[0].event.kind == "op" && r[0].event.op.Some?)
    ensures Fold(ops, EventsOf(r)) == ops + if r == [] then [] else [r[0].event.op.value]
  {
    if r == [] {
      assert EventsOf(r) == [] && ops + [] == ops;
    } else {
      assert EventsOf(r) == [r[0].event];
      FoldOne(ops, r[0].event);
    }
  }

  lemma NoRows(session: string)
    ensures RowsOf([], session) == []
  {
  }

  /** Different rows with equal keys may be answered in either order, and a replay differs. */
  lemma EqualKeysAreAmbiguous(session: string, ts: int, n: int)
    ensures var push, pop := Row(session, ts, n, Event("op", Some("x"))), Row(session, ts, n, Event("pop", None));
            && IsOrdering([push, pop], [push, pop]) && IsOrdering([pop, push], [push, pop])
            && Fold([], EventsOf([push, pop])) == [] && Fold([], EventsOf([pop, push])) == ["x"]
  {
    var op, out := Event("op", Some("x")), Event("pop", None);
    var push, pop := Row(session, ts, n, op), Row(session, ts, n, out);
    assert multiset([pop, push]) == multiset([push, pop]);
    assert EventsOf([push, pop]) == [op] + [out] && EventsOf([pop, push]) == [out] + [op];
    FoldTwo(op, out);
    FoldTwo(out, op);
  }

  lemma FoldTwo(a: Event, b: Event)
    ensures Fold([], [a] + [b]) == Apply(Apply([], a), b)
  {
    hide Apply;
    FoldAppend([], [a], [b]);
    FoldOne([], a);
    FoldOne(Apply([], a), b);
  }

  lemma FoldOne(ops: seq<string>, e: Event)
    ensures Fold(ops, [e]) == Apply(ops, e)
  {
    assert [e][1..] == [];
  }

  // ---- the database object -----------------------------------------------

  class AnalyticsDB {
    var rows: seq<Row>

    constructor ()
      ensures rows == []
    {
      rows := [];
    }

    method RecordReplayEvent(session: string, ts: int, seqNo: int, kind: string, op: Option<string>, clean: Cleaner)
      modifies this
      ensures rows == Step(old(rows), RecordEvent(session, ts, seqNo, kind, op), clean)
    {
      var text := op;
      if op.Some? {
        text := clean(op.value);
        if text.None? {
          assert rows + [] == rows;
          return;
        }
      }
      rows := rows + [Row(session, ts, Wrap(seqNo), Event(kind, text))];
    }

    method ClearReplayStream(session: string)
      modifies this
      ensures rows == Deleted(old(rows), session)
    {
      rows := DeleteRows(rows, session);
    }

    /** Selects the session's rows, orders them, and folds their events. */
    method LatestReplayOps(session: string) returns (ops: seq<string>)
      ensures exists list :: IsOrdering(list, RowsOf(rows, session)) && ops == Fold([], EventsOf(list))
    {
      var sorted := SortedRows(RowsOf(rows, session));
      ops := FoldReplayEvents(EventsOf(sorted));
    }
  }

  method DeleteRows(rows: seq<Row>, session: string) returns (kept: seq<Row>)
    ensures kept == Deleted(rows, session)
  {
    kept := [];
    var rest := rows;
    while rest != []
      invariant kept + Deleted(rest, session) == Deleted(rows, session)
    {
      if rest[0].session != session {
        Assoc(kept, [rest[0]], Deleted(rest[1..], session));
        kept := kept + [rest[0]];
      } else {
        assert [] + Deleted(rest[1..], session) == Deleted(rest[1..], session);
      }
      rest := rest[1..];
    }
    assert kept + [] == kept;
  }
}
