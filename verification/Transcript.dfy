/** Stripping escape sequences from recorded terminal bytes. Control sequences have
    the structure of section 5.4 of ECMA-48: parameter and intermediate bytes up to
    a final byte 0x40 to 0x7E. Decoding the result as UTF-8 is not modelled. */
module Transcript {
  import opened Sequences
  import opened Markers

  const BACKSPACE: Byte := 0x08
  const CR: Byte := 0x0d
  const LF: Byte := 0x0a
  const TAB: Byte := 0x09
  const BEL: Byte := 0x07
  const BACKSLASH: Byte := 0x5c

  predicate IsFinal(b: Byte) {
    0x40 <= b <= 0x7e
  }

  /** Final bytes H f A B E F J: vertical motion or display clear. */
  predicate IsBoundary(b: Byte) {
    b in {0x48, 0x66, 0x41, 0x42, 0x45, 0x46, 0x4a}
  }

  /** Bytes a transcript may hold. */
  predicate IsText(b: Byte) {
    b == LF || b == TAB || b >= 0x20
  }

  // ---- tokens ------------------------------------------------------------

  /** Position of the first final byte, or the end. */
  function FinalAt(s: seq<Byte>, i: nat): (j: nat)
    requires i <= |s|
    ensures i <= j <= |s|
    ensures forall k :: i <= k < j ==> !IsFinal(s[k])
    ensures j < |s| ==> IsFinal(s[j])
    decreases |s| - i
  {
    if i == |s| || IsFinal(s[i]) then i else FinalAt(s, i + 1)
  }

  predicate AtSt(s: seq<Byte>, i: nat) {
    i + 1 < |s| && s[i] == ESC && s[i + 1] == BACKSLASH
  }

  /** One past the terminator of a control string: ST, or also BEL for an OSC. */
  function StringEnd(s: seq<Byte>, i: nat, bel: bool): (j: nat)
    requires i <= |s|
    ensures i <= j <= |s|
    decreases |s| - i
  {
    if i == |s| then i
    else if bel && s[i] == BEL then i + 1
    else if AtSt(s, i) then i + 2
    else StringEnd(s, i + 1, bel)
  }

  /** Whether that string is terminated before the end of the data. */
  predicate StringClosed(s: seq<Byte>, i: nat, bel: bool)
    requires i <= |s|
    decreases |s| - i
  {
    i < |s| && ((bel && s[i] == BEL) || AtSt(s, i) || StringClosed(s, i + 1, bel))
  }

  /** Length of the token at the front. */
  function TokenLen(s: seq<Byte>): (n: nat)
    requires s != []
    ensures 0 < n <= |s|
  {
    if s[0] != ESC || |s| == 1 then 1
    else if s[1] == 0x5b then Min(FinalAt(s, 2) + 1, |s|)
    else if s[1] == 0x5d then StringEnd(s, 2, true)
    else if s[1] == 0x50 then StringEnd(s, 2, false)
    else 2
  }

  /** Whether the token at the front ends inside the data. */
  predicate TokenClosed(s: seq<Byte>)
    requires s != []
  {
    if s[0] != ESC then true
    else if |s| == 1 then false
    else if s[1] == 0x5b then FinalAt(s, 2) < |s|
    else if s[1] == 0x5d then StringClosed(s, 2, true)
    else if s[1] == 0x50 then StringClosed(s, 2, false)
    else true
  }

  predicate EndsInLine(out: seq<Byte>) {
    out != [] && out[|out| - 1] != LF
  }

  /** A line break, unless the transcript is empty or already at one. */
  function Boundary(out: seq<Byte>): seq<Byte> {
    if EndsInLine(out) then out + [LF] else out
  }

  /** What the token at the front does to the transcript. */
  function Emit(out: seq<Byte>, s: seq<Byte>): seq<Byte>
    requires s != []
  {
    var b := s[0];
    if b == ESC then
      if |s| > 1 && s[1] == 0x5b && FinalAt(s, 2) < |s| && IsBoundary(s[FinalAt(s, 2)]) then Boundary(out) else out
    else if b == BACKSPACE then
      if EndsInLine(out) then out[..|out| - 1] else out
    else if IsText(b) then out + [b]
    else out
  }

  function Scan(s: seq<Byte>, out: seq<Byte>): seq<Byte>
    decreases |s|
  {
    if s == [] then out else Scan(s[TokenLen(s)..], Emit(out, s))
  }

  function Strip(data: seq<Byte>): seq<Byte> {
    Scan(data, [])
  }

  // ---- the loops ---------------------------------------------------------

  /** Skips parameters and intermediates; returns the final byte, or 0 at the end. */
  method SkipControlSequence(data: seq<Byte>, start: nat) returns (i: nat, final: Byte)
    requires start <= |data|
    ensures i == Min(FinalAt(data, start) + 1, |data|)
    ensures final == if FinalAt(data, start) < |data| then data[FinalAt(data, start)] else 0
  {
    i, final := start, 0;
    while i < |data|
      invariant start <= i <= |data|
      invariant FinalAt(data, start) == FinalAt(data, i)
    {
      var c := data[i];
      i := i + 1;
      if IsFinal(c) {
        return i, c;
      }
    }
  }

  method SkipControlString(data: seq<Byte>, start: nat, bel: bool) returns (i: nat)
    requires start <= |data|
    ensures i == StringEnd(data, start, bel)
  {
    i := start;
    while i < |data|
      invariant start <= i <= |data|
      invariant StringEnd(data, start, bel) == StringEnd(data, i, bel)
    {
      if bel && data[i] == BEL {
        return i + 1;
      }
      if data[i] == ESC && i + 1 < |data| && data[i + 1] == BACKSLASH {
        return i + 2;
      }
      i := i + 1;
    }
  }

  /** Skips the escape sequence at `start`; returns the final byte of a control
      sequence, 0 for any other. */
  method SkipEscape(data: seq<Byte>, start: nat) returns (i: nat, final: Byte)
    requires start < |data| && data[start] == ESC
    ensures i == start + TokenLen(data[start..])
    ensures forall out :: Emit(out, data[start..]) == if IsBoundary(final) then Boundary(out) else out
  {
    i, final := start + 1, 0;
    if i >= |data| {
      return;
    }
    if data[i] == 0x5b {
      ShiftFinal(data, start, 2);
      i, final := SkipControlSequence(data, i + 1);
    } else if data[i] == 0x5d {
      ShiftString(data, start, 2, true);
      i := SkipControlString(data, i + 1, true);
    } else if data[i] == 0x50 {
      ShiftString(data, start, 2, false);
      i := SkipControlString(data, i + 1, false);
    } else {
      i := i + 1;
    }
  }

  /** The byte loop: one token per iteration. */
  method StripPtyControl(data: seq<Byte>) returns (out: seq<Byte>)
    ensures out == Strip(data)
  {
    hide TokenLen, Emit, Scan;
    out := [];
    var i := 0;
    assert data[0..] == data;
    while i < |data|
      invariant i <= |data|
      invariant Scan(data[i..], out) == Strip(data)
      decreases |data| - i
    {
      ScanOne(data, i, out);
      var b := data[i];
      if b == ESC {
        var final;
        i, final := SkipEscape(data, i);
        if IsBoundary(final) && out != [] && out[|out| - 1] != LF {
          out := out + [LF];
        }
      } else if b == BACKSPACE {
        if out != [] && out[|out| - 1] != LF {
          out := out[..|out| - 1];
        }
        i := i + 1;
      } else if b == CR {
        i := i + 1;
      } else if b == LF || b == TAB || b >= 0x20 {
        out := out + [b];
        i := i + 1;
      } else {
        i := i + 1;
      }
    }
    ScanNothing(data[i..], out);
  }

  lemma ScanNothing(s: seq<Byte>, out: seq<Byte>)
    requires s == []
    ensures Scan(s, out) == out
  {
  }

  /** One token of the scan, spelled out for a single byte. */
  lemma ScanOne(data: seq<Byte>, i: nat, out: seq<Byte>)
    requires i < |data|
    ensures var rest := data[i..];
            Scan(rest, out) == Scan(data[i + TokenLen(rest)..], Emit(out, rest))
    ensures data[i] != ESC ==> TokenLen(data[i..]) == 1
    ensures data[i] == BACKSPACE ==> Emit(out, data[i..]) == if EndsInLine(out) then out[..|out| - 1] else out
    ensures data[i] != ESC && data[i] != BACKSPACE ==>
              Emit(out, data[i..]) == if IsText(data[i]) then out + [data[i]] else out
  {
    ScanFirst(data, i, out);
  }

  lemma ScanFirst(data: seq<Byte>, i: nat, out: seq<Byte>)
    requires i < |data|
    ensures var rest := data[i..];
            Scan(rest, out) == Scan(data[i + TokenLen(rest)..], Emit(out, rest))
  {
    hide TokenLen, Emit;
    var rest := data[i..];
    assert rest[TokenLen(rest)..] == data[i + TokenLen(rest)..];
  }

  lemma {:induction false} ShiftFinal(data: seq<Byte>, p: nat, j: nat)
    requires p + j <= |data|
    ensures p + FinalAt(data[p..], j) == FinalAt(data, p + j)
    decreases |data| - j
  {
    if p + j < |data| && !IsFinal(data[p + j]) {
      ShiftFinal(data, p, j + 1);
    }
  }

  lemma {:induction false} ShiftString(data: seq<Byte>, p: nat, j: nat, bel: bool)
    requires p + j <= |data|
    ensures p + StringEnd(data[p..], j, bel) == StringEnd(data, p + j, bel)
    decreases |data| - j
  {
    if p + j < |data| && !(bel && data[p + j] == BEL) && !AtSt(data, p + j) {
      ShiftString(data, p, j + 1, bel);
    }
  }

  // ---- shape of the output -----------------------------------------------

  predicate AllText(s: seq<Byte>) {
    forall i :: 0 <= i < |s| ==> IsText(s[i])
  }

  lemma {:induction false} ScanYieldsText(s: seq<Byte>, out: seq<Byte>)
    requires AllText(out)
    ensures AllText(Scan(s, out)) && |Scan(s, out)| <= |out| + |s|
    decreases |s|
  {
    if s != [] {
      ScanYieldsText(s[TokenLen(s)..], Emit(out, s));
    }
  }

  lemma {:induction false} ScanKeepsText(s: seq<Byte>, out: seq<Byte>)
    requires AllText(s)
    ensures Scan(s, out) == out + s
    decreases |s|
  {
    if s != [] {
      ScanKeepsText(s[1..], out + [s[0]]);
      assert out + [s[0]] + s[1..] == out + s;
    }
  }

  /** The result holds only newlines, tabs and bytes from 0x20 up, is no longer than
      the input, and stripping it again changes nothing. */
  lemma StripIsIdempotent(data: seq<Byte>)
    ensures AllText(Strip(data)) && |Strip(data)| <= |data| && Strip(Strip(data)) == Strip(data)
  {
    ScanYieldsText(data, []);
    ScanKeepsText(Strip(data), []);
    assert [] + Strip(data) == Strip(data);
  }

  /** Which bytes of the scan's output are line breaks it inserted, alongside `Scan`:
      only an escape sequence can add a byte that was not copied from the data. */
  function Marks(s: seq<Byte>, out: seq<Byte>, marks: seq<bool>): (r: seq<bool>)
    requires |marks| == |out|
    ensures |r| == |Scan(s, out)|
    decreases |s|
  {
    if s == [] then marks else
      var grown := Emit(out, s);
      Marks(s[TokenLen(s)..], grown, if |grown| > |out| then marks + [s[0] == ESC] else marks[..|grown|])
  }

  /** A marked byte is a newline, is not the first byte and follows no newline. */
  predicate TidyBreaks(out: seq<Byte>, marks: seq<bool>)
    requires |marks| == |out|
  {
    forall i :: 0 <= i < |out| && marks[i] ==> out[i] == LF && i > 0 && out[i - 1] != LF
  }

  lemma {:induction false} ScanKeepsBreaksTidy(s: seq<Byte>, out: seq<Byte>, marks: seq<bool>)
    requires |marks| == |out| && TidyBreaks(out, marks)
    ensures TidyBreaks(Scan(s, out), Marks(s, out, marks))
    decreases |s|
  {
    if s != [] {
      var grown := Emit(out, s);
      var next := if |grown| > |out| then marks + [s[0] == ESC] else marks[..|grown|];
      ScanKeepsBreaksTidy(s[TokenLen(s)..], grown, next);
    }
  }

  /** For any bytes, newlines included, a break inserted for cursor motion is never the
      first byte of the transcript and never follows a newline, whatever was erased
      before it or copied around it. */
  lemma InsertedBreaksAreTidy(data: seq<Byte>)
    ensures TidyBreaks(Strip(data), Marks(data, [], []))
  {
    ScanKeepsBreaksTidy(data, [], []);
  }

  lemma {:induction false} ForeignNewlinesAreMarked(s: seq<Byte>, out: seq<Byte>, marks: seq<bool>)
    requires |marks| == |out| && LF !in s && forall i :: 0 <= i < |out| && out[i] == LF ==> marks[i]
    ensures forall i :: 0 <= i < |Scan(s, out)| && Scan(s, out)[i] == LF ==> Marks(s, out, marks)[i]
    decreases |s|
  {
    if s != [] {
      var grown := Emit(out, s);
      var next := if |grown| > |out| then marks + [s[0] == ESC] else marks[..|grown|];
      ForeignNewlinesAreMarked(s[TokenLen(s)..], grown, next);
    }
  }

  /** In the transcript of data without newlines every newline is such a break. */
  lemma NewlinesOfNoneAreInserted(data: seq<Byte>)
    requires LF !in data
    ensures forall i :: 0 <= i < |Strip(data)| && Strip(data)[i] == LF ==> Marks(data, [], [])[i]
  {
    ForeignNewlinesAreMarked(data, [], []);
  }

  // ---- composition -------------------------------------------------------

  /** Every token of `s` ends inside it: the scanner is at top level after it. */
  predicate TopLevel(s: seq<Byte>)
    decreases |s|
  {
    s == [] || (TokenClosed(s) && TopLevel(s[TokenLen(s)..]))
  }

  lemma {:induction false} FinalLocal(a: seq<Byte>, b: seq<Byte>, i: nat)
    requires i <= |a| && FinalAt(a, i) < |a|
    ensures FinalAt(a + b, i) == FinalAt(a, i)
    decreases |a| - i
  {
    if !IsFinal(a[i]) {
      FinalLocal(a, b, i + 1);
    }
  }

  lemma {:induction false} StringLocal(a: seq<Byte>, b: seq<Byte>, i: nat, bel: bool)
    requires i <= |a| && StringClosed(a, i, bel)
    ensures StringEnd(a + b, i, bel) == StringEnd(a, i, bel)
    decreases |a| - i
  {
    if !(bel && a[i] == BEL) && !AtSt(a, i) {
      assert AtSt(a + b, i) ==> i + 1 == |a|;
      StringLocal(a, b, i + 1, bel);
    }
  }

  /** A closed token does not look past its end. */
  lemma TokenLocal(a: seq<Byte>, b: seq<Byte>, out: seq<Byte>)
    requires a != [] && TokenClosed(a)
    ensures TokenLen(a + b) == TokenLen(a) && Emit(out, a + b) == Emit(out, a)
  {
    if a[0] == ESC && a[1] == 0x5b {
      FinalLocal(a, b, 2);
    } else if a[0] == ESC && a[1] == 0x5d {
      StringLocal(a, b, 2, true);
    } else if a[0] == ESC && a[1] == 0x50 {
      StringLocal(a, b, 2, false);
    }
  }

  /** Scanning composes at every point where the scanner is at top level. */
  lemma {:induction false} ScanSplits(a: seq<Byte>, b: seq<Byte>, out: seq<Byte>)
    requires TopLevel(a)
    ensures Scan(a + b, out) == Scan(b, Scan(a, out))
    decreases |a|
  {
    if a == [] {
      assert a + b == b;
    } else {
      TokenLocal(a, b, out);
      var n := TokenLen(a);
      assert (a + b)[n..] == a[n..] + b;
      ScanSplits(a[n..], b, Emit(out, a));
    }
  }

  /** A complete control sequence: ESC [, no final byte among the middle, a final byte. */
  function ControlSequence(middle: seq<Byte>, final: Byte): seq<Byte> {
    [ESC, 0x5b] + middle + [final]
  }

  lemma {:induction false} FinalAtIs(s: seq<Byte>, i: nat, j: nat)
    requires i <= j < |s| && IsFinal(s[j]) && forall k :: i <= k < j ==> !IsFinal(s[k])
    ensures FinalAt(s, i) == j
    decreases j - i
  {
    if i < j {
      FinalAtIs(s, i + 1, j);
    }
  }

  lemma ControlSequenceIsOneToken(middle: seq<Byte>, final: Byte, out: seq<Byte>)
    requires IsFinal(final) && forall i :: 0 <= i < |middle| ==> !IsFinal(middle[i])
    ensures var cs := ControlSequence(middle, final);
            TopLevel(cs) && Scan(cs, out) == if IsBoundary(final) then Boundary(out) else out
  {
    var cs := ControlSequence(middle, final);
    forall k | 2 <= k < |cs| - 1 ensures !IsFinal(cs[k]) {
      assert cs[k] == middle[k - 2];
    }
    FinalAtIs(cs, 2, |cs| - 1);
    assert cs[TokenLen(cs)..] == [];
  }

  /** At top level a complete control sequence is invisible, or is exactly one line
      boundary when its final byte moves vertically or clears. */
  lemma ControlSequenceInserted(a: seq<Byte>, middle: seq<Byte>, final: Byte, b: seq<Byte>)
    requires TopLevel(a) && IsFinal(final) && forall i :: 0 <= i < |middle| ==> !IsFinal(middle[i])
    ensures !IsBoundary(final) ==> Strip(a + ControlSequence(middle, final) + b) == Strip(a + b)
    ensures IsBoundary(final) ==> Strip(a + ControlSequence(middle, final) + b) == Scan(b, Boundary(Strip(a)))
  {
    hide Scan, TopLevel;
    var cs := ControlSequence(middle, final);
    Assoc(a, cs, b);
    ScanSplits(a, cs + b, []);
    ControlSequenceIsOneToken(middle, final, Strip(a));
    ScanSplits(cs, b, Strip(a));
    ScanSplits(a, b, []);
  }

  lemma {:induction false} StringEndIs(s: seq<Byte>, i: nat, bel: bool, j: nat)
    requires i <= j < |s| && forall k :: i <= k < j ==> !(bel && s[k] == BEL) && !AtSt(s, k)
    requires (bel && s[j] == BEL) || AtSt(s, j)
    ensures StringClosed(s, i, bel) && StringEnd(s, i, bel) == if bel && s[j] == BEL then j + 1 else j + 2
    decreases j - i
  {
    if i < j {
      StringEndIs(s, i + 1, bel, j);
    }
  }

  lemma {:induction false} StringRunsOut(s: seq<Byte>, i: nat, bel: bool)
    requires i <= |s| && forall k :: i <= k < |s| ==> !(bel && s[k] == BEL) && !AtSt(s, k)
    ensures StringEnd(s, i, bel) == |s|
    decreases |s| - i
  {
    if i < |s| {
      StringRunsOut(s, i + 1, bel);
    }
  }

  /** ESC ] or ESC P, a body and a terminator. */
  function ControlString(kind: Byte, body: seq<Byte>, end: seq<Byte>): seq<Byte> {
    [ESC, kind] + body + end
  }

  /** An operating system command ends at BEL or at ESC \\, a device control string only
      at ESC \\; complete at top level it is invisible, and without an end it swallows
      the rest. */
  lemma ControlStringInserted(a: seq<Byte>, body: seq<Byte>, b: seq<Byte>)
    requires TopLevel(a) && forall i :: 0 <= i < |body| ==> !AtSt(body, i)
    ensures Strip(a + ControlString(0x50, body, [ESC, BACKSLASH]) + b) == Strip(a + b)
    ensures Strip(a + ControlString(0x50, body, [])) == Strip(a)
    ensures BEL !in body ==>
              && Strip(a + ControlString(0x5d, body, [ESC, BACKSLASH]) + b) == Strip(a + b)
              && Strip(a + ControlString(0x5d, body, [BEL]) + b) == Strip(a + b)
              && Strip(a + ControlString(0x5d, body, [])) == Strip(a)
  {
    hide Strip, TopLevel, AtSt;
    CompleteString(0x50, body, [ESC, BACKSLASH]);
    EscapeInserted(a, ControlString(0x50, body, [ESC, BACKSLASH]), b);
    Unterminated(a, 0x50, body);
    if BEL !in body {
      CompleteString(0x5d, body, [ESC, BACKSLASH]);
      EscapeInserted(a, ControlString(0x5d, body, [ESC, BACKSLASH]), b);
      CompleteString(0x5d, body, [BEL]);
      EscapeInserted(a, ControlString(0x5d, body, [BEL]), b);
      Unterminated(a, 0x5d, body);
    }
  }

  lemma CompleteString(kind: Byte, body: seq<Byte>, end: seq<Byte>)
    requires (kind == 0x5d && BEL !in body) || kind == 0x50
    requires forall i :: 0 <= i < |body| ==> !AtSt(body, i)
    requires end == [ESC, BACKSLASH] || (kind == 0x5d && end == [BEL])
    ensures var e := ControlString(kind, body, end); TokenClosed(e) && TokenLen(e) == |e|
  {
    var e := ControlString(kind, body, end);
    var n := 2 + |body|;
    forall k | 2 <= k < n ensures !(kind == 0x5d && e[k] == BEL) && !AtSt(e, k) {
      assert e[k] == body[k - 2] && !AtSt(body, k - 2);
      assert k + 1 < n ==> e[k + 1] == body[k - 1];
    }
    StringEndIs(e, 2, kind == 0x5d, n);
  }

  lemma Unterminated(a: seq<Byte>, kind: Byte, body: seq<Byte>)
    requires TopLevel(a) && ((kind == 0x5d && BEL !in body) || kind == 0x50)
    requires forall i :: 0 <= i < |body| ==> !AtSt(body, i)
    ensures Strip(a + ControlString(kind, body, [])) == Strip(a)
  {
    var e := ControlString(kind, body, []);
    forall k | 2 <= k < |e| ensures !(kind == 0x5d && e[k] == BEL) && !AtSt(e, k) {
      assert e[k] == body[k - 2] && !AtSt(body, k - 2);
      assert k + 1 < |e| ==> e[k + 1] == body[k - 1];
    }
    StringRunsOut(e, 2, kind == 0x5d);
    ScanSplits(a, e, []);
    assert e[0..] == e && e[|e|..] == [];
    ScanOne(e, 0, Strip(a));
    ScanNothing([], Strip(a));
  }

  /** A byte at top level: newline, tab and anything from 0x20 is copied; backspace takes
      back one byte of the current line; any other control byte vanishes. */
  lemma ByteInserted(a: seq<Byte>, c: Byte, b: seq<Byte>)
    requires TopLevel(a) && c != ESC
    ensures var out := Strip(a);
            Strip(a + [c] + b)
            == if c == 0x0a || c == 0x09 || c >= 0x20 then Scan(b, out + [c])
               else if c == 0x08 && out != [] && out[|out| - 1] != 0x0a then Scan(b, out[..|out| - 1])
               else Scan(b, out)
  {
    hide Scan;
    var out := Strip(a);
    assert [c][0..] == [c] && [c][1..] == [];
    assert TopLevel([c]);
    ScanOne([c], 0, out);
    ScanNothing([], Emit(out, [c]));
    Assoc(a, [c], b);
    ScanSplits(a, [c] + b, []);
    ScanSplits([c], b, out);
  }

  /** At top level any other complete escape sequence is invisible: a control string up
      to its terminator, or ESC and one byte. */
  lemma EscapeInserted(a: seq<Byte>, e: seq<Byte>, b: seq<Byte>)
    requires TopLevel(a) && |e| >= 2 && e[0] == ESC && e[1] != 0x5b && TokenClosed(e) && TokenLen(e) == |e|
    ensures Strip(a + e + b) == Strip(a + b)
  {
    hide TokenLen, TokenClosed, Scan;
    var out := Strip(a);
    assert e[TokenLen(e)..] == [] && Emit(out, e) == out;
    assert TopLevel(e);
    assert e[0..] == e;
    ScanOne(e, 0, out);
    ScanNothing([], out);
    Assoc(a, e, b);
    ScanSplits(a, e + b, []);
    ScanSplits(e, b, out);
    ScanSplits(a, b, []);
  }

  /** At top level a printable byte followed by a backspace is invisible. */
  lemma BackspaceErases(a: seq<Byte>, c: Byte, b: seq<Byte>)
    requires TopLevel(a) && c >= 0x20
    ensures Strip(a + [c, BACKSPACE] + b) == Strip(a + b)
  {
    var pair := [c, BACKSPACE];
    var out := Strip(a);
    assert pair[1..] == [BACKSPACE] && (out + [c])[..|out + [c]| - 1] == out;
    assert TopLevel([BACKSPACE]) && Scan([BACKSPACE], out + [c]) == out by {
      assert [BACKSPACE][1..] == [];
    }
    Assoc(a, pair, b);
    ScanSplits(a, pair + b, []);
    ScanSplits(pair, b, out);
    ScanSplits(a, b, []);
  }

  // ---- transcripts -------------------------------------------------------

  datatype Direction = In | Out

  datatype Record = Record(direction: Direction, data: seq<Byte>)

  const IN_MARK: seq<Byte> := [0x5b, 0x69, 0x6e, 0x5d, 0x20]  // "[in] "

  /** One record's share: typed input is marked and closed with a newline. */
  function RecordText(r: Record): seq<Byte> {
    var cleaned := Strip(r.data);
    if cleaned == [] then []
    else if r.direction.In? then
      IN_MARK + cleaned + (if cleaned[|cleaned| - 1] == LF then [] else [LF])
    else cleaned
  }

  function TranscriptOf(records: seq<Record>): seq<Byte> {
    if records == [] then [] else RecordText(records[0]) + TranscriptOf(records[1..])
  }

  /** A record that strips to nothing has no share. Output is its stripped bytes; input
      is marked, and closed with a newline of its own unless it ends in one. */
  lemma RecordShare(r: Record)
    ensures var share, cleaned := RecordText(r), Strip(r.data);
            && (cleaned == [] ==> share == [])
            && (cleaned != [] && r.direction == Out ==> share == cleaned)
            && (cleaned != [] && r.direction == In ==>
                  && share[..5] == [0x5b, 0x69, 0x6e, 0x5d, 0x20] && share[|share| - 1] == 0x0a
                  && cleaned <= share[5..] && |share| <= |cleaned| + 6
                  && (|share| == |cleaned| + 5 <==> cleaned[|cleaned| - 1] == 0x0a))
  {
    hide Strip;
  }

  /** The final bytes that break a line are H, f, A, B, E, F and J. */
  lemma BoundaryFinals(b: Byte)
    ensures IsBoundary(b) <==> (b as char) in "HfABEFJ"
  {
    var finals := "HfABEFJ";
    if IsBoundary(b) {
      assert (b as char) in {finals[0], finals[1], finals[2], finals[3], finals[4], finals[5], finals[6]};
    }
  }

  method AppendRecord(before: seq<Byte>, r: Record) returns (out: seq<Byte>)
    ensures out == before + RecordText(r)
  {
    hide Strip;
    out := before;
    var cleaned := StripPtyControl(r.data);
    if cleaned == [] {
      return;
    }
    if r.direction.In? {
      out := out + IN_MARK;
      out := out + cleaned;
      if cleaned[|cleaned| - 1] != LF {
        out := out + [LF];
      }
    } else {
      out := out + cleaned;
    }
  }

  method RecordsToTranscript(records: seq<Record>) returns (out: seq<Byte>)
    ensures out == TranscriptOf(records)
  {
    hide RecordText;
    out := [];
    for i := 0 to |records|
      invariant out == TranscriptOf(records[..i])
    {
      TranscriptDistributes(records[..i], [records[i]]);
      assert records[..i + 1] == records[..i] + [records[i]];
      assert TranscriptOf([records[i]]) == RecordText(records[i]) + [];
      out := AppendRecord(out, records[i]);
    }
    assert records[..|records|] == records;
  }

  /** Transcripts of consecutive record lists concatenate. */
  lemma {:induction false} TranscriptDistributes(a: seq<Record>, b: seq<Record>)
    ensures TranscriptOf(a + b) == TranscriptOf(a) + TranscriptOf(b)
  {
    if a == [] {
      assert a + b == b;
    } else {
      assert (a + b)[1..] == a[1..] + b;
      TranscriptDistributes(a[1..], b);
      Assoc(RecordText(a[0]), TranscriptOf(a[1..]), TranscriptOf(b));
    }
  }
}
