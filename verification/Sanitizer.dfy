/** Cleaning captured terminal output: escape sequences and control characters go,
    runs of newlines collapse, surrounding white space is trimmed. The text is a
    sequence of code points. */
module Sanitizer {
  import opened Sequences

  predicate IsEsc(c: char) { c as int == 0x1b }

  predicate IsAscii(c: char) { (c as int) < 0x80 }

  predicate IsFinal(c: char) { 0x40 <= c as int <= 0x7e }

  predicate IsControl(c: char) { (c as int) < 0x20 || 0x7f <= c as int <= 0x9f }

  /** The characters with the Unicode property White_Space. */
  predicate IsWhite(c: char) {
    var n := c as int;
    9 <= n <= 13 || n in {0x20, 0x85, 0xa0, 0x1680, 0x2028, 0x2029, 0x202f, 0x205f, 0x3000} || 0x2000 <= n <= 0x200a
  }

  /** What a cleaned text may hold. */
  predicate IsClean(c: char) { c == '\n' || c == '\t' || !IsControl(c) }

  predicate AllClean(s: string) { forall i :: 0 <= i < |s| ==> IsClean(s[i]) }

  // ---- the scan ----------------------------------------------------------

  function FinalAt(s: string, i: nat): (j: nat)
    requires i <= |s|
    ensures i <= j <= |s|
    decreases |s| - i
  {
    if i == |s| || IsFinal(s[i]) then i else FinalAt(s, i + 1)
  }

  predicate AtSt(s: string, i: nat) {
    i + 1 < |s| && IsEsc(s[i]) && s[i + 1] == '\\'
  }

  function StringEnd(s: string, i: nat): (j: nat)
    requires i <= |s|
    ensures i <= j <= |s|
    decreases |s| - i
  {
    if i == |s| then i
    else if s[i] as int == 7 then i + 1
    else if AtSt(s, i) then i + 2
    else StringEnd(s, i + 1)
  }

  function TokenLen(s: string): (n: nat)
    requires s != []
    ensures 0 < n <= |s|
  {
    if !IsEsc(s[0]) || |s| == 1 then 1
    else if s[1] == '[' then Min(FinalAt(s, 2) + 1, |s|)
    else if s[1] == ']' then StringEnd(s, 2)
    else 2
  }

  /** What one token leaves: a carriage return becomes a newline. */
  function Kept(c: char): string {
    if IsClean(c) then [c] else if c == '\r' then "\n" else ""
  }

  /** The code advances by one byte after ESC, so a non-ASCII character there leaves it
      inside that character, where it panics. */
  predicate PanicsHere(s: string) {
    |s| > 1 && IsEsc(s[0]) && !IsAscii(s[1])
  }

  /** The scanned text, or nothing when the scan panics. */
  function Scanned(s: string): Option<string>
    decreases |s|
  {
    if s == [] then Some("")
    else if PanicsHere(s) then None
    else match Scanned(s[TokenLen(s)..])
         case None => None
         case Some(rest) => Some(Kept(s[0]) + rest)
  }

  ghost function Before(out: string, rest: Option<string>): Option<string> {
    if rest.None? then None else Some(out + rest.value)
  }

  lemma BeforeBefore(a: string, b: string, rest: Option<string>)
    ensures Before(a, Before(b, rest)) == Before(a + b, rest)
  {
    if rest.Some? {
      Assoc(a, b, rest.value);
    }
  }

  method SkipToFinal(s: string, start: nat) returns (i: nat)
    requires start <= |s|
    ensures i == Min(FinalAt(s, start) + 1, |s|)
  {
    i := start;
    while i < |s|
      invariant start <= i <= |s|
      invariant FinalAt(s, start) == FinalAt(s, i)
    {
      var c := s[i];
      i := i + 1;
      if IsFinal(c) {
        return;
      }
    }
  }

  method SkipString(s: string, start: nat) returns (i: nat)
    requires start <= |s|
    ensures i == StringEnd(s, start)
  {
    i := start;
    while i < |s|
      invariant start <= i <= |s|
      invariant StringEnd(s, start) == StringEnd(s, i)
    {
      if s[i] as int == 7 {
        return i + 1;
      }
      if IsEsc(s[i]) && i + 1 < |s| && s[i + 1] == '\\' {
        return i + 2;
      }
      i := i + 1;
    }
  }

  lemma {:induction false} ShiftFinal(s: string, p: nat, j: nat)
    requires p + j <= |s|
    ensures p + FinalAt(s[p..], j) == FinalAt(s, p + j)
    decreases |s| - j
  {
    if p + j < |s| && !IsFinal(s[p + j]) {
      ShiftFinal(s, p, j + 1);
    }
  }

  lemma {:induction false} ShiftString(s: string, p: nat, j: nat)
    requires p + j <= |s|
    ensures p + StringEnd(s[p..], j) == StringEnd(s, p + j)
    decreases |s| - j
  {
    if p + j < |s| && s[p + j] as int != 7 && !AtSt(s, p + j) {
      ShiftString(s, p, j + 1);
    }
  }

  /** Skips the escape sequence at `start`, or reports that the code would panic. */
  method SkipEscape(s: string, start: nat) returns (i: Option<nat>)
    requires start < |s| && IsEsc(s[start])
    ensures i == if PanicsHere(s[start..]) then None else Some(start + TokenLen(s[start..]))
  {
    if start + 1 >= |s| {
      return Some(start + 1);
    }
    if s[start + 1] == '[' {
      ShiftFinal(s, start, 2);
      var j := SkipToFinal(s, start + 2);
      return Some(j);
    }
    if s[start + 1] == ']' {
      ShiftString(s, start, 2);
      var j := SkipString(s, start + 2);
      return Some(j);
    }
    return if IsAscii(s[start + 1]) then Some(start + 2) else None;
  }

  method ScanText(s: string) returns (r: Option<string>)
    ensures r == Scanned(s)
  {
    hide TokenLen, Kept, Scanned, PanicsHere;
    var out := "";
    var i := 0;
    assert s[0..] == s;
    BeforeNothing(Scanned(s));
    while i < |s|
      invariant i <= |s|
      invariant Before(out, Scanned(s[i..])) == Scanned(s)
      decreases |s| - i
    {
      ScannedStep(s, i);
      if IsEsc(s[i]) {
        var next := SkipEscape(s, i);
        if next.None? {
          return None;
        }
        assert out + "" == out;
        BeforeBefore(out, "", Scanned(s[next.value..]));
        i := next.value;
      } else {
        var ch := s[i];
        i := i + 1;
        BeforeBefore(out, Kept(ch), Scanned(s[i..]));
        if ch == '\n' || ch == '\t' || !IsControl(ch) {
          out := out + [ch];
        } else if ch == '\r' {
          out := out + "\n";
        } else {
          assert out + "" == out;
        }
      }
    }
    ScannedNothing(s[i..]);
    assert out + "" == out;
    r := Some(out);
  }

  lemma BeforeNothing(rest: Option<string>)
    ensures Before("", rest) == rest
  {
    if rest.Some? {
      assert "" + rest.value == rest.value;
    }
  }

  lemma ScannedNothing(s: string)
    requires s == []
    ensures Scanned(s) == Some("")
  {
  }

  lemma ScannedStep(s: string, i: nat)
    requires i < |s|
    ensures PanicsHere(s[i..]) ==> Scanned(s[i..]) == None && IsEsc(s[i])
    ensures !PanicsHere(s[i..]) ==> Scanned(s[i..]) == Before(Kept(s[i]), Scanned(s[i + TokenLen(s[i..])..]))
    ensures IsEsc(s[i]) ==> Kept(s[i]) == ""
    ensures !IsEsc(s[i]) ==> TokenLen(s[i..]) == 1
    ensures IsClean(s[i]) ==> Kept(s[i]) == [s[i]]
    ensures !IsClean(s[i]) ==> Kept(s[i]) == if s[i] == '\r' then "\n" else ""
  {
    if !PanicsHere(s[i..]) {
      ScannedFirst(s, i);
    }
  }

  lemma ScannedFirst(s: string, i: nat)
    requires i < |s| && !PanicsHere(s[i..])
    ensures Scanned(s[i..]) == Before(Kept(s[i]), Scanned(s[i + TokenLen(s[i..])..]))
  {
    hide TokenLen, Kept;
    assert s[i..][TokenLen(s[i..])..] == s[i + TokenLen(s[i..])..];
  }

  lemma {:induction false} ScannedIsClean(s: string)
    ensures Scanned(s).Some? ==> AllClean(Scanned(s).value)
    decreases |s|
  {
    if s != [] && !PanicsHere(s) {
      ScannedIsClean(s[TokenLen(s)..]);
    }
  }

  lemma {:induction false} ScannedKeepsClean(s: string)
    requires AllClean(s)
    ensures Scanned(s) == Some(s)
    decreases |s|
  {
    hide Scanned, Kept, TokenLen, PanicsHere, IsWhite;
    ScannedNothing("");
    if s != [] {
      assert s[0..] == s;
      ScannedStep(s, 0);
      ScannedKeepsClean(s[1..]);
      assert [s[0]] + s[1..] == s;
    }
  }

  /** `p` is where one of the scan's tokens starts, or the end. */
  predicate TopAt(s: string, p: nat)
    decreases |s|
  {
    p == 0 || (s != [] && p >= TokenLen(s) && TopAt(s[TokenLen(s)..], p - TokenLen(s)))
  }

  /** The scan panics exactly on text holding, at a point where the scan is inside no
      other escape sequence, an ESC followed by a non-ASCII character. */
  lemma {:induction false} PanicsIff(s: string)
    ensures Scanned(s).None? <==> exists p :: 0 <= p < |s| && TopAt(s, p) && PanicsHere(s[p..])
    decreases |s|
  {
    if s == [] {
      return;
    }
    var n := TokenLen(s);
    PanicsIff(s[n..]);
    if PanicsHere(s) {
      assert TopAt(s, 0) && s[0..] == s;
    } else if Scanned(s[n..]).None? {
      var q :| 0 <= q < |s[n..]| && TopAt(s[n..], q) && PanicsHere(s[n..][q..]);
      assert TopAt(s, n + q) && s[n + q..] == s[n..][q..];
    } else {
      forall p | 0 <= p < |s| && TopAt(s, p) ensures !PanicsHere(s[p..]) {
        if p == 0 {
          assert s[0..] == s;
        } else {
          assert s[p..] == s[n..][p - n..];
        }
      }
    }
  }

  /** The shortest text that panics, and one with the same pair inside a control
      sequence, which does not. */
  lemma AccentAfterEscapePanics()
    ensures Scanned("\U{1b}\U{e9}") == None
    ensures Scanned("\U{1b}[\U{1b}\U{e9}A") == Some("")
  {
    var inside := "\U{1b}[\U{1b}\U{e9}A";
    assert FinalAt(inside, 4) == 4 && FinalAt(inside, 2) == 4;
    assert inside[5..] == "" && Scanned("") == Some("");
    assert "" + "" == "";
  }

  /** Text in which ESC is only followed by ASCII never panics. */
  lemma {:induction false} AsciiEscapesDoNotPanic(s: string)
    requires forall i :: 0 <= i < |s| - 1 && IsEsc(s[i]) ==> IsAscii(s[i + 1])
    ensures Scanned(s).Some?
    decreases |s|
  {
    if s != [] {
      var n := TokenLen(s);
      forall i | 0 <= i < |s[n..]| - 1 && IsEsc(s[n..][i]) ensures IsAscii(s[n..][i + 1]) {
        assert IsEsc(s[n + i]);
      }
      AsciiEscapesDoNotPanic(s[n..]);
    }
  }

  // ---- what the scan removes ---------------------------------------------

  predicate StringClosed(s: string, i: nat)
    requires i <= |s|
    decreases |s| - i
  {
    i < |s| && (s[i] as int == 7 || AtSt(s, i) || StringClosed(s, i + 1))
  }

  /** Whether the token at the front ends inside the text. */
  predicate TokenClosed(s: string)
    requires s != []
  {
    if !IsEsc(s[0]) then true
    else if |s| == 1 then false
    else if s[1] == '[' then FinalAt(s, 2) < |s|
    else if s[1] == ']' then StringClosed(s, 2)
    else true
  }

  /** Every token of `s` ends inside it: the scan is inside no sequence after it. */
  predicate TopLevel(s: string)
    decreases |s|
  {
    s == [] || (TokenClosed(s) && TopLevel(s[TokenLen(s)..]))
  }

  lemma {:induction false} FinalLocal(a: string, b: string, i: nat)
    requires i <= |a| && FinalAt(a, i) < |a|
    ensures FinalAt(a + b, i) == FinalAt(a, i)
    decreases |a| - i
  {
    if !IsFinal(a[i]) {
      FinalLocal(a, b, i + 1);
    }
  }

  lemma {:induction false} StringLocal(a: string, b: string, i: nat)
    requires i <= |a| && StringClosed(a, i)
    ensures StringEnd(a + b, i) == StringEnd(a, i)
    decreases |a| - i
  {
    if a[i] as int != 7 && !AtSt(a, i) {
      assert AtSt(a + b, i) ==> i + 1 == |a|;
      StringLocal(a, b, i + 1);
    }
  }

  lemma TokenLocal(a: string, b: string)
    requires a != [] && TokenClosed(a)
    ensures TokenLen(a + b) == TokenLen(a) && PanicsHere(a + b) == PanicsHere(a) && (a + b)[0] == a[0]
  {
    if IsEsc(a[0]) && a[1] == '[' {
      FinalLocal(a, b, 2);
    } else if IsEsc(a[0]) && a[1] == ']' {
      StringLocal(a, b, 2);
    }
  }

  /** Both texts, unless one of them panics. */
  function Both(a: Option<string>, b: Option<string>): Option<string> {
    if a.None? || b.None? then None else Some(a.value + b.value)
  }

  lemma BothOfOne(c: string, a: Option<string>, b: Option<string>)
    ensures Before(c, Both(a, b)) == Both(Before(c, a), b)
  {
    if a.Some? && b.Some? {
      Assoc(c, a.value, b.value);
    }
  }

  /** Scanning composes at every point where the scan is inside no sequence. */
  lemma {:induction false} ScannedSplits(a: string, b: string)
    requires TopLevel(a)
    ensures Scanned(a + b) == Both(Scanned(a), Scanned(b))
    decreases |a|
  {
    hide TokenLen, Kept, PanicsHere, TokenClosed;
    if a == [] {
      assert a + b == b;
      ScannedNothing("");
      BeforeNothing(Scanned(b));
    } else {
      TokenLocal(a, b);
      var n := TokenLen(a);
      assert (a + b)[n..] == a[n..] + b;
      ScannedSplits(a[n..], b);
      BothOfOne(Kept(a[0]), Scanned(a[n..]), Scanned(b));
    }
  }

  /** A token of its own leaves what its first character leaves. */
  lemma ScannedToken(e: string)
    requires e != [] && TokenClosed(e) && TokenLen(e) == |e| && !PanicsHere(e)
    ensures TopLevel(e) && Scanned(e) == Some(Kept(e[0]))
  {
    hide TokenLen, Kept, PanicsHere, TokenClosed;
    assert e[TokenLen(e)..] == [];
    assert Kept(e[0]) + "" == Kept(e[0]);
  }

  /** A character outside any sequence is kept if it is no control character but newline
      or tab; a carriage return becomes a newline; others vanish. */
  lemma CharacterScanned(a: string, c: char, b: string)
    requires TopLevel(a) && !IsEsc(c)
    ensures var k := if c == '\n' || c == '\t' || !((c as int) < 0x20 || 0x7f <= c as int <= 0x9f) then [c]
                     else if c == '\r' then "\n" else "";
            Scanned(a + [c] + b) == Both(Both(Scanned(a), Some(k)), Scanned(b))
  {
    ScannedToken([c]);
    Inserted(a, [c], b, Kept(c));
  }

  lemma Inserted(a: string, e: string, b: string, k: string)
    requires TopLevel(a) && TopLevel(e) && Scanned(e) == Some(k)
    ensures Scanned(a + e + b) == Both(Both(Scanned(a), Some(k)), Scanned(b))
  {
    hide Scanned, TopLevel;
    Assoc(a, e, b);
    ScannedSplits(a, e + b);
    ScannedSplits(e, b);
    if Scanned(a).Some? && Scanned(b).Some? {
      Assoc(Scanned(a).value, k, Scanned(b).value);
    }
  }

  lemma {:induction false} FinalAtIs(s: string, i: nat, j: nat)
    requires i <= j < |s| && IsFinal(s[j]) && forall k :: i <= k < j ==> !IsFinal(s[k])
    ensures FinalAt(s, i) == j
    decreases j - i
  {
    if i < j {
      FinalAtIs(s, i + 1, j);
    }
  }

  lemma {:induction false} StringEndIs(s: string, i: nat, j: nat)
    requires i <= j < |s| && forall k :: i <= k < j ==> s[k] as int != 7 && !AtSt(s, k)
    requires s[j] as int == 7 || AtSt(s, j)
    ensures StringClosed(s, i) && StringEnd(s, i) == if s[j] as int == 7 then j + 1 else j + 2
    decreases j - i
  {
    if i < j {
      StringEndIs(s, i + 1, j);
    }
  }

  const ESC: string := "\U{1b}"
  const BEL: string := "\U{7}"

  /** A control sequence up to its final byte, an operating system command up to BEL or
      ESC \\, and ESC with any other ASCII character: each is one token. */
  lemma SequencesAreTokens(body: string, final: char)
    ensures IsFinal(final) && (forall i :: 0 <= i < |body| ==> !IsFinal(body[i])) ==>
              IsSequence(ESC + "[" + body + [final])
    ensures (forall i :: 0 <= i < |body| ==> body[i] as int != 7 && !AtSt(body, i)) ==>
              IsSequence(ESC + "]" + body + BEL) && IsSequence(ESC + "]" + body + ESC + "\\")
    ensures IsAscii(final) && final != '[' && final != ']' ==> IsSequence(ESC + [final])
  {
    var csi, bel, st := ESC + "[" + body + [final], ESC + "]" + body + BEL, ESC + "]" + body + ESC + "\\";
    forall k | 2 <= k < 2 + |body| ensures csi[k] == bel[k] == st[k] == body[k - 2] {
    }
    if IsFinal(final) && (forall i :: 0 <= i < |body| ==> !IsFinal(body[i])) {
      FinalAtIs(csi, 2, |csi| - 1);
    }
    if forall i :: 0 <= i < |body| ==> body[i] as int != 7 && !AtSt(body, i) {
      StringsAreTokens(body, bel, st);
    }
  }

  lemma StringsAreTokens(body: string, bel: string, st: string)
    requires bel == ESC + "]" + body + BEL && st == ESC + "]" + body + ESC + "\\"
    requires forall i :: 0 <= i < |body| ==> body[i] as int != 7 && !AtSt(body, i)
    ensures IsSequence(bel) && IsSequence(st)
  {
    var n := |body|;
    forall k | 2 <= k < 2 + n ensures bel[k] as int != 7 && !AtSt(bel, k) && st[k] as int != 7 && !AtSt(st, k) {
      assert bel[k] == st[k] == body[k - 2] && !AtSt(body, k - 2);
      assert k + 1 < 2 + n ==> bel[k + 1] == st[k + 1] == body[k - 1];
    }
    StringEndIs(bel, 2, 2 + n);
    StringEndIs(st, 2, 2 + n);
  }

  predicate IsSequence(e: string) {
    e != [] && IsEsc(e[0]) && TokenClosed(e) && TokenLen(e) == |e| && !PanicsHere(e)
  }

  /** Inserted where the scan is inside no sequence, each of these is invisible. */
  lemma SequenceIsInvisible(a: string, e: string, b: string)
    requires TopLevel(a) && IsSequence(e)
    ensures Scanned(a + e + b) == Scanned(a + b)
  {
    hide Scanned, TopLevel, TokenLen, TokenClosed;
    ScannedToken(e);
    Inserted(a, e, b, "");
    ScannedSplits(a, b);
    if Scanned(a).Some? { assert Scanned(a).value + "" == Scanned(a).value; }
  }

  // ---- newline runs ------------------------------------------------------

  predicate TripleAt(s: string, i: nat) {
    i + 2 < |s| && s[i] == s[i + 1] == s[i + 2] == '\n'
  }

  predicate HasTriple(s: string) {
    exists i :: 0 <= i < |s| && TripleAt(s, i)
  }

  /** One pass of replacing, left to right, three newlines by two. */
  function ReplaceTriples(s: string): string {
    if s == [] then ""
    else if TripleAt(s, 0) then "\n\n" + ReplaceTriples(s[3..])
    else [s[0]] + ReplaceTriples(s[1..])
  }

  /** At most two newlines in a row, `k` of them already passed. */
  function CapRuns(s: string, k: nat): string {
    if s == [] then ""
    else if s[0] != '\n' then [s[0]] + CapRuns(s[1..], 0)
    else if k >= 2 then CapRuns(s[1..], k)
    else "\n" + CapRuns(s[1..], k + 1)
  }

  lemma {:induction false} ReplacingKeepsCappedRuns(s: string, k: nat)
    requires k <= 2
    ensures CapRuns(ReplaceTriples(s), k) == CapRuns(s, k)
    decreases |s|
  {
    if s != [] {
      if TripleAt(s, 0) {
        var rest := ReplaceTriples(s[3..]);
        ReplacingKeepsCappedRuns(s[3..], 2);
        TwoNewlines(rest, k);
        TwoNewlines(s[2..], k);
        assert s == "\n\n" + s[2..] && s[2..] == "\n" + s[3..];
        assert ("\n" + s[3..])[1..] == s[3..];
      } else {
        var rest := ReplaceTriples(s[1..]);
        assert ([s[0]] + rest)[1..] == rest;
        ReplacingKeepsCappedRuns(s[1..], if s[0] != '\n' then 0 else if k >= 2 then k else k + 1);
      }
    }
  }

  lemma TwoNewlines(t: string, k: nat)
    requires k <= 2
    ensures CapRuns("\n\n" + t, k) == Repeat('\n', 2 - k) + CapRuns(t, 2)
  {
    var one := "\n" + t;
    assert "\n\n" + t == "\n" + one && ("\n" + one)[1..] == one && one[1..] == t;
    if k == 0 {
      assert CapRuns(one, 1) == "\n" + CapRuns(t, 2);
      assert Repeat('\n', 2) == "\n" + "\n";
    } else if k == 1 {
      assert CapRuns(one, 2) == CapRuns(t, 2);
      assert Repeat('\n', 1) == "\n";
    } else {
      assert CapRuns(one, 2) == CapRuns(t, 2);
      assert Repeat('\n', 0) == "";
    }
  }

  lemma {:induction false} ReplacingShrinks(s: string)
    ensures |ReplaceTriples(s)| <= |s|
    ensures HasTriple(s) ==> |ReplaceTriples(s)| < |s|
    decreases |s|
  {
    if s != [] {
      if TripleAt(s, 0) {
        ReplacingShrinks(s[3..]);
      } else {
        ReplacingShrinks(s[1..]);
        if HasTriple(s) {
          var i :| 0 <= i < |s| && TripleAt(s, i);
          assert TripleAt(s[1..], i - 1);
        }
      }
    }
  }

  /** Without three newlines in a row nothing is capped. */
  lemma {:induction false} NoTripleNoCap(s: string, k: nat)
    requires k <= 2 && !HasTriple(Repeat('\n', k) + s)
    ensures CapRuns(s, k) == s
    decreases |s|
  {
    if s != [] {
      var t := Repeat('\n', k) + s;
      if s[0] != '\n' {
        forall i | 0 <= i < |s[1..]| ensures !TripleAt(s[1..], i) {
          if TripleAt(s[1..], i) { assert TripleAt(t, k + 1 + i); }
        }
        assert Repeat('\n', 0) + s[1..] == s[1..];
        NoTripleNoCap(s[1..], 0);
      } else {
        assert k == 2 ==> TripleAt(t, 0);
        assert Repeat('\n', k + 1) + s[1..] == t;
        NoTripleNoCap(s[1..], k + 1);
      }
    }
  }

  /** The rewriting loop ends, and caps every run of newlines at two. */
  method CollapseNewlines(s: string) returns (r: string)
    ensures r == CapRuns(s, 0) && !HasTriple(r)
  {
    r := s;
    while HasTriple(r)
      invariant CapRuns(r, 0) == CapRuns(s, 0)
      decreases |r|
    {
      ReplacingShrinks(r);
      ReplacingKeepsCappedRuns(r, 0);
      r := ReplaceTriples(r);
    }
    assert Repeat('\n', 0) + r == r;
    NoTripleNoCap(r, 0);
  }

  lemma {:induction false} CapRunsKeepsClean(s: string, k: nat)
    requires AllClean(s)
    ensures AllClean(CapRuns(s, k))
    decreases |s|
  {
    if s != [] {
      CapRunsKeepsClean(s[1..], if s[0] != '\n' then 0 else if k >= 2 then k else k + 1);
    }
  }

  lemma NoTripleCons(c: char, rest: string)
    requires c != '\n' && HasTriple([c] + rest)
    ensures HasTriple(rest)
  {
    var i :| 0 <= i < |[c] + rest| && TripleAt([c] + rest, i);
    assert TripleAt(rest, i - 1);
  }

  /** Up to two newlines before text that starts with none make no triple. */
  lemma FewNewlines(k: nat, s: string)
    requires k <= 2 && (s != "" ==> s[0] != '\n')
    ensures HasTriple(Repeat('\n', k) + s) ==> HasTriple(s)
  {
    var t := Repeat('\n', k) + s;
    if HasTriple(t) {
      var i :| 0 <= i < |t| && TripleAt(t, i);
      assert s != "" ==> t[k] == s[0];
      assert TripleAt(s, i - k);
    }
  }

  lemma {:induction false} CappedHasNoTriple(s: string, k: nat)
    requires k <= 2
    ensures !HasTriple(Repeat('\n', k) + CapRuns(s, k))
    decreases |s|
  {
    hide HasTriple;
    var t := Repeat('\n', k) + CapRuns(s, k);
    if s == [] {
      assert t == Repeat('\n', k);
      FewNewlines(k, "");
    } else {
      if s[0] != '\n' {
        CappedHasNoTriple(s[1..], 0);
        var rest := CapRuns(s[1..], 0);
        assert Repeat('\n', 0) + rest == rest;
        FewNewlines(k, [s[0]] + rest);
        if HasTriple([s[0]] + rest) { NoTripleCons(s[0], rest); }
      } else if k >= 2 {
        CappedHasNoTriple(s[1..], k);
      } else {
        CappedHasNoTriple(s[1..], k + 1);
        assert t == Repeat('\n', k + 1) + CapRuns(s[1..], k + 1);
      }
    }
  }

  /** Text that ends its last newline run is capped on its own. */
  lemma {:induction false} CapRunsSplits(a: string, b: string, k: nat)
    requires a != [] && a[|a| - 1] != '\n'
    ensures CapRuns(a + b, k) == CapRuns(a, k) + CapRuns(b, 0)
    decreases |a|
  {
    var next := if a[0] != '\n' then 0 else if k >= 2 then k else k + 1;
    assert (a + b)[1..] == a[1..] + b;
    if |a| == 1 {
      assert a[1..] + b == b && CapRuns(a, k) == [a[0]] + "";
    } else {
      CapRunsSplits(a[1..], b, next);
      assert [a[0]] + (CapRuns(a[1..], next) + CapRuns(b, 0)) == [a[0]] + CapRuns(a[1..], next) + CapRuns(b, 0);
    }
  }

  lemma {:induction false} CapsOneRun(n: nat, k: nat, b: string)
    requires k <= 2 && (b == [] || b[0] != '\n')
    ensures CapRuns(Repeat('\n', n) + b, k) == Repeat('\n', Min(n, 2 - k)) + CapRuns(b, 0)
    decreases n
  {
    var s := Repeat('\n', n) + b;
    if n == 0 {
      assert s == b && Repeat('\n', 0) + CapRuns(b, 0) == CapRuns(b, 0);
    } else {
      assert s[1..] == Repeat('\n', n - 1) + b;
      CapsOneRun(n - 1, if k >= 2 then k else k + 1, b);
      if k < 2 {
        assert Repeat('\n', Min(n, 2 - k)) == "\n" + Repeat('\n', Min(n - 1, 1 - k));
        Assoc("\n", Repeat('\n', Min(n - 1, 1 - k)), CapRuns(b, 0));
      }
    }
  }

  /** Each run of newlines becomes one of two at most; what is around it does not matter
      and is treated alike. */
  lemma CapsEachRun(a: string, n: nat, b: string)
    requires a == [] || a[|a| - 1] != '\n'
    requires b == [] || b[0] != '\n'
    ensures CapRuns(a + (Repeat('\n', n) + b), 0) == CapRuns(a, 0) + (Repeat('\n', Min(n, 2)) + CapRuns(b, 0))
  {
    hide CapRuns;
    CapsOneRun(n, 0, b);
    if a == [] {
      CapRunsOfNothing();
      assert a + (Repeat('\n', n) + b) == Repeat('\n', n) + b;
    } else {
      CapRunsSplits(a, Repeat('\n', n) + b, 0);
    }
  }

  lemma CapRunsOfNothing()
    ensures CapRuns("", 0) == ""
  {
  }

  // ---- trimming ----------------------------------------------------------

  function TrimStart(s: string): (t: string)
    ensures |t| <= |s| && t == s[|s| - |t|..]
    ensures t != [] ==> !IsWhite(t[0])
  {
    if s != [] && IsWhite(s[0]) then TrimStart(s[1..]) else s
  }

  function TrimEnd(s: string): (t: string)
    ensures t <= s
    ensures t != [] ==> !IsWhite(t[|t| - 1])
  {
    if s != [] && IsWhite(s[|s| - 1]) then TrimEnd(s[..|s| - 1]) else s
  }

  function Trim(s: string): string {
    TrimEnd(TrimStart(s))
  }

  method TrimText(s: string) returns (t: string)
    ensures t == Trim(s)
  {
    t := s;
    while t != [] && IsWhite(t[0])
      invariant TrimStart(t) == TrimStart(s)
    {
      t := t[1..];
    }
    while t != [] && IsWhite(t[|t| - 1])
      invariant TrimEnd(t) == Trim(s)
    {
      t := t[..|t| - 1];
    }
  }

  predicate Trimmed(s: string) {
    s != [] ==> !IsWhite(s[0]) && !IsWhite(s[|s| - 1])
  }

  /** What lies outside `[a, b)` is white space. */
  predicate WhiteAround(s: string, a: nat, b: nat)
    requires a <= b <= |s|
  {
    (forall i :: 0 <= i < a ==> IsWhite(s[i])) && forall i :: b <= i < |s| ==> IsWhite(s[i])
  }

  /** Trimming takes white space from the two ends, all of it and nothing else. */
  lemma TrimIsASlice(s: string)
    ensures Trimmed(Trim(s)) && Trim(Trim(s)) == Trim(s)
    ensures exists a, b :: 0 <= a <= b <= |s| && Trim(s) == s[a..b] && WhiteAround(s, a, b)
  {
    hide Trimmed, Trim, WhiteAround;
    TrimIsTrimmed(s);
    TrimmedStays(Trim(s));
    var a, b := TrimSpan(s);
    assert Trim(s) == s[a..b] && WhiteAround(s, a, b);
  }

  lemma {:induction false} TrimStartDropsWhite(s: string)
    ensures forall i :: 0 <= i < |s| - |TrimStart(s)| ==> IsWhite(s[i])
    decreases |s|
  {
    hide IsWhite;
    if s != [] && IsWhite(s[0]) {
      TrimStartDropsWhite(s[1..]);
      forall i | 1 <= i < |s| - |TrimStart(s)| ensures IsWhite(s[i]) { assert s[1..][i - 1] == s[i]; }
    }
  }

  lemma {:induction false} TrimEndDropsWhite(s: string)
    ensures forall i :: |TrimEnd(s)| <= i < |s| ==> IsWhite(s[i])
    decreases |s|
  {
    hide IsWhite;
    if s != [] && IsWhite(s[|s| - 1]) {
      TrimEndDropsWhite(s[..|s| - 1]);
      forall i | |TrimEnd(s)| <= i < |s| - 1 ensures IsWhite(s[i]) { assert s[..|s| - 1][i] == s[i]; }
    }
  }

  lemma TrimIsTrimmed(s: string)
    ensures Trimmed(Trim(s))
  {
    hide IsWhite;
    var u, t := TrimStart(s), Trim(s);
    assert t != [] ==> t[0] == u[0];
  }

  lemma TrimSpan(s: string) returns (a: nat, b: nat)
    ensures a <= b <= |s| && Trim(s) == s[a..b] && WhiteAround(s, a, b)
  {
    hide TrimStart, TrimEnd, IsWhite;
    var u := TrimStart(s);
    a := |s| - |u|;
    b := a + |Trim(s)|;
    TrimStartDropsWhite(s);
    TrimEndDropsWhite(u);
    forall i | b <= i < |s| ensures IsWhite(s[i]) {
      assert u[i - a] == s[i];
    }
  }

  lemma TrimmedStays(t: string)
    requires Trimmed(t)
    ensures Trim(t) == t
  {
  }

  // ---- the whole ---------------------------------------------------------

  function Sanitized(s: string): Option<string> {
    match Scanned(s)
    case None => None
    case Some(t) => Some(Trim(CapRuns(t, 0)))
  }

  method SanitizeTerminalOutput(s: string) returns (r: Option<string>)
    ensures r == Sanitized(s)
  {
    var scanned := ScanText(s);
    if scanned.None? {
      return None;
    }
    var collapsed := CollapseNewlines(scanned.value);
    var trimmed := TrimText(collapsed);
    r := Some(trimmed);
  }

  lemma SliceKeepsShape(s: string, a: nat, b: nat)
    requires a <= b <= |s| && AllClean(s) && !HasTriple(s)
    ensures AllClean(s[a..b]) && !HasTriple(s[a..b])
  {
    var t := s[a..b];
    forall i | 0 <= i < |t| ensures !TripleAt(t, i) {
      assert !TripleAt(s, a + i);
    }
  }

  lemma CleanStays(t: string)
    requires AllClean(t)
    ensures !HasTriple(t) && Trim(t) == t ==> Sanitized(t) == Some(t)
  {
    hide Trim, HasTriple, AllClean;
    ScannedKeepsClean(t);
    assert Repeat('\n', 0) + t == t;
    if !HasTriple(t) {
      NoTripleNoCap(t, 0);
    }
  }

  /** Whenever the scan does not panic, the result has no control characters except
      newline and tab, no three newlines in a row, no white space at either end, and
      sanitizing it again changes nothing. */
  lemma SanitizingIsIdempotent(s: string)
    ensures Sanitized(s).Some? ==>
              var t := Sanitized(s).value;
              AllClean(t) && !HasTriple(t) && Trimmed(t) && Sanitized(t) == Some(t)
  {
    hide Scanned, CapRuns, Trim, HasTriple, Trimmed;
    if Scanned(s).None? {
      return;
    }
    var u := Scanned(s).value;
    var c := CapRuns(u, 0);
    ScannedIsClean(s);
    CapRunsKeepsClean(u, 0);
    CappedHasNoTriple(u, 0);
    assert Repeat('\n', 0) + c == c;
    TrimIsASlice(c);
    var a, b :| 0 <= a <= b <= |c| && Trim(c) == c[a..b] && WhiteAround(c, a, b);
    SliceKeepsShape(c, a, b);
    CleanStays(Trim(c));
  }

  /** What leaves the scanned and collapsed text is white space at its ends. */
  lemma SanitizingDropsOnlyWhiteEnds(s: string) returns (a: nat, b: nat)
    requires Scanned(s).Some?
    ensures var c := CapRuns(Scanned(s).value, 0);
            a <= b <= |c| && Sanitized(s) == Some(c[a..b]) && WhiteAround(c, a, b)
  {
    hide Scanned, CapRuns, Trim, WhiteAround;
    a, b := TrimSpan(CapRuns(Scanned(s).value, 0));
  }
}
