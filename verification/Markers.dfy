/** Shell-integration markers: ESC ] 1 3 3 ; D [;] digits. Output is fed to the
    parser in segments cut after each marker; a marker records the exit code and
    proves that no program is left to consume mouse reports. */
module Markers {
  import opened Sequences
  import opened Screens
  import opened AltScreen

  type Byte = b: int | 0 <= b < 256

  const ESC: Byte := 0x1b
  const SEMICOLON: Byte := 0x3b
  const PATTERN: seq<Byte> := [0x1b, 0x5d, 0x31, 0x33, 0x33, 0x3b, 0x44]
  const MAX_I32: int := 0x7fff_ffff

  predicate IsDigit(b: Byte) {
    0x30 <= b <= 0x39
  }

  predicate MarkerAt(data: seq<Byte>, p: nat) {
    p + |PATTERN| <= |data| && data[p..p + |PATTERN|] == PATTERN
  }

  /** The end of the run of digits starting at `j`. */
  function DigitsEnd(data: seq<Byte>, j: nat): (e: nat)
    requires j <= |data|
    ensures j <= e <= |data|
    ensures forall i :: j <= i < e ==> IsDigit(data[i])
    ensures e < |data| ==> !IsDigit(data[e])
    decreases |data| - j
  {
    if j < |data| && IsDigit(data[j]) then DigitsEnd(data, j + 1) else j
  }

  function DigitsStart(data: seq<Byte>, p: nat): (j: nat)
    requires MarkerAt(data, p)
    ensures p + |PATTERN| <= j <= |data|
  {
    var j := p + |PATTERN|;
    if j < |data| && data[j] == SEMICOLON then j + 1 else j
  }

  /** One past the exit-code digits of the marker at `p`. */
  function MarkerEnd(data: seq<Byte>, p: nat): (e: nat)
    requires MarkerAt(data, p)
    ensures p + |PATTERN| <= e <= |data|
  {
    DigitsEnd(data, DigitsStart(data, p))
  }

  function Decimal(digits: seq<Byte>): (n: nat)
    requires forall i :: 0 <= i < |digits| ==> IsDigit(digits[i])
  {
    if digits == [] then 0 else
      var last := digits[|digits| - 1];
      assert IsDigit(last);
      10 * Decimal(digits[..|digits| - 1]) + (last as int - 0x30)
  }

  /** A number as decimal digits. */
  function Digits(n: nat): (ds: seq<Byte>)
    ensures ds != [] && forall i :: 0 <= i < |ds| ==> IsDigit(ds[i])
  {
    if n < 10 then [0x30 + n] else Digits(n / 10) + [0x30 + n % 10]
  }

  lemma {:induction false} DecimalOfDigits(n: nat)
    ensures Decimal(Digits(n)) == n
  {
    if n >= 10 {
      DecimalOfDigits(n / 10);
      assert Digits(n)[..|Digits(n)| - 1] == Digits(n / 10);
    } else {
      assert Digits(n)[..0] == [];
    }
  }

  lemma {:induction false} DigitsEndSkips(bytes: seq<Byte>, j: nat, e: nat)
    requires j <= e < |bytes| && !IsDigit(bytes[e])
    requires forall i :: j <= i < e ==> IsDigit(bytes[i])
    ensures DigitsEnd(bytes, j) == e
    decreases e - j
  {
    if j < e {
      DigitsEndSkips(bytes, j + 1, e);
    }
  }

  /** No digits mean success; digits past the 32-bit range do not parse. */
  function ExitCode(data: seq<Byte>, p: nat): Option<int>
    requires MarkerAt(data, p)
  {
    var digits := data[DigitsStart(data, p)..MarkerEnd(data, p)];
    if digits == [] then Some(0)
    else if Decimal(digits) <= MAX_I32 then Some(Decimal(digits))
    else None
  }

  function FirstMarker(data: seq<Byte>, i: nat): (r: Option<nat>)
    requires i <= |data|
    ensures r.Some? ==> i <= r.value && MarkerAt(data, r.value) && forall q :: i <= q < r.value ==> !MarkerAt(data, q)
    ensures r.None? ==> forall q :: i <= q ==> !MarkerAt(data, q)
    decreases |data| - i
  {
    if i == |data| then None
    else if MarkerAt(data, i) then Some(i)
    else FirstMarker(data, i + 1)
  }

  datatype ExitCodeMarker = ExitCodeMarker(end: nat, exitCode: Option<int>)

  method ReadDigits(data: seq<Byte>, start: nat) returns (j: nat, value: nat)
    requires start <= |data|
    ensures j == DigitsEnd(data, start) && value == Decimal(data[start..j])
  {
    j, value := start, 0;
    while j < |data| && IsDigit(data[j])
      invariant start <= j <= |data|
      invariant forall k :: start <= k < j ==> IsDigit(data[k])
      invariant DigitsEnd(data, start) == DigitsEnd(data, j)
      invariant value == Decimal(data[start..j])
    {
      assert data[start..j + 1][..j - start] == data[start..j];
      value := 10 * value + (data[j] as int - 0x30);
      j := j + 1;
    }
  }

  /** The scanner: compares the pattern only at ESC bytes, then walks the digits. */
  method FindExitCodeMarker(data: seq<Byte>) returns (m: Option<ExitCodeMarker>)
    ensures m.None? <==> forall q :: !MarkerAt(data, q)
    ensures m.Some? ==> FirstMarker(data, 0).Some? &&
                        var p := FirstMarker(data, 0).value;
                        m.value == ExitCodeMarker(MarkerEnd(data, p), ExitCode(data, p))
  {
    hide MarkerAt, IsDigit, DigitsEnd, Decimal;
    var i := 0;
    while i < |data|
      invariant i <= |data|
      invariant FirstMarker(data, 0) == FirstMarker(data, i)
    {
      MarkerHere(data, i);
      if data[i] == ESC && i + |PATTERN| <= |data| && data[i + 1..i + |PATTERN|] == PATTERN[1..] {
        var j := i + |PATTERN|;
        if j < |data| && data[j] == SEMICOLON {
          j := j + 1;
        }
        var end, value := ReadDigits(data, j);
        var code := if end > j then (if value <= MAX_I32 then Some(value) else None) else Some(0);
        return Some(ExitCodeMarker(end, code));
      }
      i := i + 1;
    }
    m := None;
  }

  lemma MarkerHere(data: seq<Byte>, i: nat)
    requires i < |data|
    ensures MarkerAt(data, i) <==>
              data[i] == ESC && i + |PATTERN| <= |data| && data[i + 1..i + |PATTERN|] == PATTERN[1..]
  {
    if i + |PATTERN| <= |data| {
      assert data[i..i + |PATTERN|] == [data[i]] + data[i + 1..i + |PATTERN|];
      assert PATTERN == [ESC] + PATTERN[1..];
    }
  }

  /** A marker with a printed code carries that code, if it fits 32 bits, and ends after
      it, with or without the semicolon; one without digits means success. */
  lemma PrintedCodeIsRead(n: nat, rest: seq<Byte>)
    requires rest == [] || !IsDigit(rest[0])
    ensures var data := PATTERN + [SEMICOLON] + Digits(n) + rest;
            MarkerAt(data, 0) && MarkerEnd(data, 0) == |data| - |rest|
            && ExitCode(data, 0) == if n < 0x8000_0000 then Some(n) else None
    ensures var data := PATTERN + Digits(n) + rest;
            MarkerAt(data, 0) && MarkerEnd(data, 0) == |data| - |rest|
            && ExitCode(data, 0) == if n < 0x8000_0000 then Some(n) else None
    ensures var data := PATTERN + [SEMICOLON] + rest;
            MarkerAt(data, 0) && MarkerEnd(data, 0) == |data| - |rest| && ExitCode(data, 0) == Some(0)
    ensures rest == [] || rest[0] != SEMICOLON ==>
              var data := PATTERN + rest;
              MarkerAt(data, 0) && MarkerEnd(data, 0) == |data| - |rest| && ExitCode(data, 0) == Some(0)
  {
    hide Digits, Decimal;
    DecimalOfDigits(n);
    CodeAt(PATTERN + [SEMICOLON], Digits(n), rest);
    CodeAt(PATTERN, Digits(n), rest);
    CodeAt(PATTERN + [SEMICOLON], [], rest);
    if rest == [] || rest[0] != SEMICOLON { CodeAt(PATTERN, [], rest); }
    assert PATTERN + [SEMICOLON] + [] + rest == PATTERN + [SEMICOLON] + rest && PATTERN + [] + rest == PATTERN + rest;
  }

  /** A marker read back from its parts. */
  lemma CodeAt(head: seq<Byte>, digits: seq<Byte>, rest: seq<Byte>)
    requires head == PATTERN || head == PATTERN + [SEMICOLON]
    requires forall i :: 0 <= i < |digits| ==> IsDigit(digits[i])
    requires rest == [] || !IsDigit(rest[0])
    requires head == PATTERN && digits == [] && rest != [] ==> rest[0] != SEMICOLON
    ensures var data := head + digits + rest;
            && MarkerAt(data, 0) && DigitsStart(data, 0) == |head| && MarkerEnd(data, 0) == |head| + |digits|
            && ExitCode(data, 0) == if digits == [] then Some(0)
                                    else if Decimal(digits) <= MAX_I32 then Some(Decimal(digits)) else None
  {
    hide Decimal, MarkerAt, DigitsStart, DigitsEnd, IsDigit;
    var data := head + digits + rest;
    Assoc(head, digits, rest);
    if digits != [] { NotSemicolon(digits[0]); }
    HeadIsMarker(head, digits + rest);
    DigitsSpan(head, digits, rest);
    SliceBetween(head, digits, rest);
  }

  lemma NotSemicolon(b: Byte)
    requires IsDigit(b)
    ensures b != SEMICOLON
  {
  }

  lemma SliceBetween(a: seq<Byte>, b: seq<Byte>, c: seq<Byte>)
    ensures (a + b + c)[|a|..|a| + |b|] == b
  {
  }

  lemma HeadIsMarker(head: seq<Byte>, tail: seq<Byte>)
    requires head == PATTERN || head == PATTERN + [SEMICOLON]
    requires head == PATTERN && tail != [] ==> tail[0] != SEMICOLON
    ensures MarkerAt(head + tail, 0) && DigitsStart(head + tail, 0) == |head|
  {
    var data := head + tail;
    assert data[0..0 + |PATTERN|] == PATTERN;
  }

  lemma DigitsSpan(head: seq<Byte>, digits: seq<Byte>, rest: seq<Byte>)
    requires forall i :: 0 <= i < |digits| ==> IsDigit(digits[i])
    requires rest == [] || !IsDigit(rest[0])
    ensures DigitsEnd(head + digits + rest, |head|) == |head| + |digits|
  {
    hide IsDigit, DigitsEnd;
    var data := head + digits + rest;
    var e := |head| + |digits|;
    forall i | |head| <= i < e ensures IsDigit(data[i]) { assert data[i] == digits[i - |head|]; }
    if rest == [] {
      DigitsRunOut(data, |head|);
    } else {
      assert data[e] == rest[0];
      DigitsEndSkips(data, |head|, e);
    }
  }

  lemma {:induction false} DigitsRunOut(bytes: seq<Byte>, j: nat)
    requires j <= |bytes| && forall i :: j <= i < |bytes| ==> IsDigit(bytes[i])
    ensures DigitsEnd(bytes, j) == |bytes|
    decreases |bytes| - j
  {
    if j < |bytes| {
      DigitsRunOut(bytes, j + 1);
    }
  }

  // ---- segments ----------------------------------------------------------

  /** A segment ends at a marker, whose code it carries, or at the end of the data. */
  datatype Segment = Segment(bytes: seq<Byte>, marker: Option<Option<int>>)

  predicate OnlyLastUnmarked(segs: seq<Segment>) {
    segs != [] && forall i :: 0 <= i < |segs| ==> (segs[i].marker.None? <==> i == |segs| - 1)
  }

  function Segments(data: seq<Byte>): (segs: seq<Segment>)
    ensures OnlyLastUnmarked(segs)
    decreases |data|
  {
    match FirstMarker(data, 0)
    case None => [Segment(data, None)]
    case Some(p) =>
      var e := MarkerEnd(data, p);
      [Segment(data[..e], Some(ExitCode(data, p)))] + Segments(data[e..])
  }

  function BytesOf(segs: seq<Segment>): seq<Byte> {
    if segs == [] then [] else segs[0].bytes + BytesOf(segs[1..])
  }

  lemma {:induction false} SegmentsJoin(data: seq<Byte>)
    ensures BytesOf(Segments(data)) == data
    decreases |data|
  {
    match FirstMarker(data, 0) {
      case None =>
        assert BytesOf([Segment(data, None)]) == data + BytesOf([]);
      case Some(p) =>
        var e := MarkerEnd(data, p);
        SegmentsJoin(data[e..]);
        var first := Segment(data[..e], Some(ExitCode(data, p)));
        assert ([first] + Segments(data[e..]))[1..] == Segments(data[e..]);
        assert data == data[..e] + data[e..];
    }
  }

  /** Where each segment but the last one ends, counted from `base`. */
  function Cuts(segs: seq<Segment>, base: nat): seq<nat>
    decreases |segs|
  {
    if |segs| <= 1 then [] else
      var end := base + |segs[0].bytes|;
      [end] + Cuts(segs[1..], end)
  }

  lemma CutsCons(first: Segment, rest: seq<Segment>, base: nat, c: nat)
    requires rest != []
    ensures c in Cuts([first] + rest, base)
            <==> c == base + |first.bytes| || c in Cuts(rest, base + |first.bytes|)
  {
    assert ([first] + rest)[1..] == rest;
  }

  /** Dropping a prefix shifts markers, their ends and their codes. */
  lemma ShiftMarker(data: seq<Byte>, e: nat, q: nat)
    requires e <= |data|
    ensures MarkerAt(data[e..], q) <==> MarkerAt(data, e + q)
    ensures MarkerAt(data, e + q) ==>
              e + MarkerEnd(data[e..], q) == MarkerEnd(data, e + q) && ExitCode(data[e..], q) == ExitCode(data, e + q)
  {
    if q + |PATTERN| <= |data| - e {
      assert data[e..][q..q + |PATTERN|] == data[e + q..e + q + |PATTERN|];
      if MarkerAt(data, e + q) {
        ShiftDigits(data, e, DigitsStart(data[e..], q));
        assert data[e..][DigitsStart(data[e..], q)..MarkerEnd(data[e..], q)]
            == data[DigitsStart(data, e + q)..MarkerEnd(data, e + q)];
      }
    }
  }

  lemma {:induction false} ShiftDigits(data: seq<Byte>, e: nat, j: nat)
    requires e + j <= |data|
    ensures e + DigitsEnd(data[e..], j) == DigitsEnd(data, e + j)
    decreases |data| - j
  {
    if e + j < |data| && IsDigit(data[e + j]) {
      ShiftDigits(data, e, j + 1);
    }
  }

  /** The ESC that starts a marker does not occur again inside it. */
  lemma NoEscInside(data: seq<Byte>, p: nat, i: nat)
    requires MarkerAt(data, p) && p < i < MarkerEnd(data, p)
    ensures data[i] != ESC
  {
    if i < p + |PATTERN| {
      assert data[i] == data[p..p + |PATTERN|][i - p];
    }
  }

  /** So markers never overlap. */
  lemma MarkersDoNotOverlap(data: seq<Byte>, p: nat, q: nat)
    requires MarkerAt(data, p) && MarkerAt(data, q) && p < q
    ensures MarkerEnd(data, p) <= q
  {
    assert data[q..q + |PATTERN|][0] == ESC;
    if q < MarkerEnd(data, p) {
      NoEscInside(data, p, q);
    }
  }

  ghost predicate EndsAMarker(data: seq<Byte>, end: int) {
    exists p :: MarkerAt(data, p) && MarkerEnd(data, p) == end
  }

  /** Markers of the data are the first one and those of what follows it. */
  lemma MarkerEndsSplit(data: seq<Byte>, first: nat, end: int)
    requires FirstMarker(data, 0) == Some(first)
    ensures var e := MarkerEnd(data, first);
            EndsAMarker(data, end) <==> end == e || EndsAMarker(data[e..], end - e)
  {
    hide MarkerEnd, FirstMarker, MarkerAt;
    var e := MarkerEnd(data, first);
    assert EndsAMarker(data, e);
    if p :| MarkerAt(data, p) && MarkerEnd(data, p) == end && p != first {
      assert first < p;
      MarkersDoNotOverlap(data, first, p);
      ShiftMarker(data, e, p - e);
      assert EndsAMarker(data[e..], end - e);
    }
    if q :| MarkerAt(data[e..], q) && MarkerEnd(data[e..], q) == end - e {
      ShiftMarker(data, e, q);
      assert EndsAMarker(data, end);
    }
  }

  lemma CutsOfMarkedData(data: seq<Byte>, p: nat, base: nat, c: nat)
    requires FirstMarker(data, 0) == Some(p)
    ensures var e := MarkerEnd(data, p);
            c in Cuts(Segments(data), base) <==> c == base + e || c in Cuts(Segments(data[e..]), base + e)
  {
    hide FirstMarker, MarkerAt, MarkerEnd, ExitCode, Cuts;
    var e := MarkerEnd(data, p);
    CutsCons(Segment(data[..e], Some(ExitCode(data, p))), Segments(data[e..]), base, c);
  }

  lemma NoMarkerNoCut(data: seq<Byte>, base: nat, end: int)
    requires FirstMarker(data, 0).None?
    ensures Cuts(Segments(data), base) == [] && !EndsAMarker(data, end)
  {
  }

  /** The cuts fall exactly after every marker, and nowhere else. */
  lemma {:induction false} CutsAreExactlyMarkerEnds(data: seq<Byte>, base: nat, c: nat, end: int)
    requires c == base + end
    ensures c in Cuts(Segments(data), base) <==> EndsAMarker(data, end)
    decreases |data|
  {
    hide FirstMarker, MarkerEnd, MarkerAt, Segments, Cuts, EndsAMarker;
    var found := FirstMarker(data, 0);
    if found.None? {
      NoMarkerNoCut(data, base, end);
    } else {
      var e := MarkerEnd(data, found.value);
      CutsOfMarkedData(data, found.value, base, c);
      MarkerEndsSplit(data, found.value, end);
      CutsAreExactlyMarkerEnds(data[e..], base + e, c, end - e);
    }
  }

  // ---- effects -----------------------------------------------------------

  /** A marker stores a parseable code and clears every mouse mode. */
  function AfterMarker(s: Screen, code: Option<int>): (r: Screen)
    ensures Inv(s) ==> Follows(s, r)
  {
    var t := s.(mouse := MOUSE_OFF);
    if code.Some? then t.(exitCode := code, exitDirty := true) else t
  }

  /** The code left by a list of segments, starting from `code`. */
  function CodeAfter(code: Option<int>, segs: seq<Segment>): Option<int>
    decreases |segs|
  {
    if segs == [] then code
    else
      var m := segs[0].marker;
      CodeAfter(if m.Some? && m.value.Some? then m.value else code, segs[1..])
  }

  /** No marker at or after `from` carries a code that parses. */
  ghost predicate NoneParse(data: seq<Byte>, from: int) {
    forall q :: from <= q && MarkerAt(data, q) ==> ExitCode(data, q).None?
  }

  lemma NoneParseShift(data: seq<Byte>, e: nat, from: int)
    requires e <= |data| && NoneParse(data, from)
    ensures NoneParse(data[e..], from - e)
  {
    hide MarkerAt, ExitCode;
    forall q | from - e <= q && 0 <= q && MarkerAt(data[e..], q) ensures ExitCode(data[e..], q).None? {
      ShiftMarker(data, e, q);
    }
  }

  lemma {:induction false} UnchangedWhenNoneParse(code: Option<int>, data: seq<Byte>)
    requires NoneParse(data, 0)
    ensures CodeAfter(code, Segments(data)) == code
    decreases |data|
  {
    var found := FirstMarker(data, 0);
    if found.Some? {
      var e := MarkerEnd(data, found.value);
      SegmentsStep(code, data, found.value);
      NoneParseShift(data, e, 0);
      assert NoneParse(data[e..], 0);
      UnchangedWhenNoneParse(code, data[e..]);
    } else {
      assert CodeAfter(code, [Segment(data, None)]) == CodeAfter(code, []);
    }
  }

  lemma SegmentsStep(code: Option<int>, data: seq<Byte>, p: nat)
    requires FirstMarker(data, 0) == Some(p)
    ensures CodeAfter(code, Segments(data))
            == CodeAfter(if ExitCode(data, p).Some? then ExitCode(data, p) else code,
                         Segments(data[MarkerEnd(data, p)..]))
  {
    var e := MarkerEnd(data, p);
    assert ([Segment(data[..e], Some(ExitCode(data, p)))] + Segments(data[e..]))[1..] == Segments(data[e..]);
  }

  /** The recorded exit code is that of the last marker whose code parses (and, by the
      lemma above, the old one when there is none). */
  lemma {:induction false} ExitCodeIsLastParseable(code: Option<int>, data: seq<Byte>, p: nat)
    requires MarkerAt(data, p) && ExitCode(data, p).Some? && NoneParse(data, p + 1)
    ensures CodeAfter(code, Segments(data)) == ExitCode(data, p)
    decreases |data|
  {
    hide FirstMarker, MarkerAt, MarkerEnd, ExitCode, Segments, CodeAfter;
    var first := FirstMarker(data, 0).value;
    var e := MarkerEnd(data, first);
    var next := if ExitCode(data, first).Some? then ExitCode(data, first) else code;
    SegmentsStep(code, data, first);
    NoneParseShift(data, e, p + 1);
    if p == first {
      assert NoneParse(data[e..], 0);
      UnchangedWhenNoneParse(next, data[e..]);
    } else {
      assert first < p;
      MarkersDoNotOverlap(data, first, p);
      ShiftMarker(data, e, p - e);
      ExitCodeIsLastParseable(next, data[e..], p - e);
    }
  }

  // ---- the parser --------------------------------------------------------

  /** The external escape-sequence parser: a machine from bytes to handler calls. */
  type Vte<!P> = (P, seq<Byte>) -> (P, seq<Op>)

  /** What the parser calls for on these segments, in the states it reaches on the way,
      is what a terminal of this size can do. */
  predicate Serves<P>(p: P, segs: seq<Segment>, vte: Vte<P>, rows: nat)
    decreases |segs|
  {
    segs == [] ||
    var (q, ops) := vte(p, segs[0].bytes);
    AllLegal(ops, rows) && Serves(q, segs[1..], vte, rows)
  }

  /** One segment through the parser and the terminal, then its marker. */
  ghost function FeedOne<P>(s: Screen, p: P, segment: Segment, vte: Vte<P>): (r: (Screen, P))
    requires Inv(s) && AllLegal(vte(p, segment.bytes).1, s.rows)
    ensures Follows(s, r.0)
  {
    var (q, ops) := vte(p, segment.bytes);
    var t := Run(s, ops);
    (if segment.marker.Some? then AfterMarker(t, segment.marker.value) else t, q)
  }

  /** Feeding segments in stream order. */
  ghost function Feed<P>(s: Screen, p: P, segs: seq<Segment>, vte: Vte<P>): (r: (Screen, P))
    requires Inv(s) && Serves(p, segs, vte, s.rows)
    ensures Follows(s, r.0)
    decreases |segs|
  {
    if segs == [] then (s, p) else
      var (t, q) := FeedOne(s, p, segs[0], vte);
      Feed(t, q, segs[1..], vte)
  }

  ghost function ParserAfter<P>(p: P, segs: seq<Segment>, vte: Vte<P>): P
    decreases |segs|
  {
    if segs == [] then p else ParserAfter(vte(p, segs[0].bytes).0, segs[1..], vte)
  }

  /** The handler calls of the last segment. */
  ghost function LastOps<P>(p: P, segs: seq<Segment>, vte: Vte<P>): seq<Op>
    requires segs != []
  {
    vte(ParserAfter(p, segs[..|segs| - 1], vte), segs[|segs| - 1].bytes).1
  }

  /** A marker clears the modes whatever its segment did to them, and only a parseable
      code replaces the old one. */
  lemma SegmentMouse<P>(s: Screen, p: P, segment: Segment, vte: Vte<P>)
    requires Inv(s) && AllLegal(vte(p, segment.bytes).1, s.rows)
    ensures var r := FeedOne(s, p, segment, vte);
            r.1 == vte(p, segment.bytes).0 &&
            r.0.mouse == (if segment.marker.Some? then MOUSE_OFF else MouseRun(s.mouse, vte(p, segment.bytes).1)) &&
            r.0.exitCode == CodeAfter(s.exitCode, [segment]) &&
            r.0.exitDirty == (s.exitDirty || (segment.marker.Some? && segment.marker.value.Some?))
  {
    hide Inv, Step, Run, MouseRun;
    RunMouse(s, vte(p, segment.bytes).1);
    assert [segment][1..] == [];
  }

  lemma LastOpsSkipFirst<P>(p: P, segs: seq<Segment>, vte: Vte<P>)
    requires |segs| >= 2
    ensures LastOps(p, segs, vte) == LastOps(vte(p, segs[0].bytes).0, segs[1..], vte)
  {
    assert segs[..|segs| - 1][1..] == segs[1..][..|segs| - 2];
  }

  /** After the whole buffer the mouse modes are what the calls after the last marker
      make of all-clear flags (of the old flags when there is no marker), and the exit
      code is the one the markers leave. */
  lemma {:induction false} MouseComesFromTheLastSegment<P>(s: Screen, p: P, segs: seq<Segment>, vte: Vte<P>)
    requires Inv(s) && Serves(p, segs, vte, s.rows) && OnlyLastUnmarked(segs)
    ensures Feed(s, p, segs, vte).0.mouse == MouseRun(if |segs| == 1 then s.mouse else MOUSE_OFF, LastOps(p, segs, vte))
    ensures Feed(s, p, segs, vte).0.exitCode == CodeAfter(s.exitCode, segs)
    ensures Feed(s, p, segs, vte).1 == ParserAfter(p, segs, vte)
    decreases |segs|
  {
    hide Inv, Step, Run, MouseRun, FeedOne, AllLegal, AfterMarker;
    SegmentMouse(s, p, segs[0], vte);
    if |segs| > 1 {
      var (t, q) := FeedOne(s, p, segs[0], vte);
      assert segs[1..] != [];
      MouseComesFromTheLastSegment(t, q, segs[1..], vte);
      LastOpsSkipFirst(p, segs, vte);
    } else {
      assert segs[1..] == [] && segs[..0] == [];
    }
  }
}
