/** Mouse reports, as in xterm Control Sequences, section "Extended coordinates":
    ESC [ < flags ; col ; row M|m, or the legacy ESC [ M and three bytes. */
module MouseReports {
  import opened Sequences
  import opened Markers

  datatype Kind = Press | Release | Motion

  datatype Report = Report(kind: Kind, button: bv8, col: nat, row: nat, shift: bool, alt: bool, ctrl: bool)

  /** The button with the motion bit and the modifier bits set. */
  function Flags(r: Report): bv8 {
    r.button
    | (if r.kind == Motion then 32 else 0)
    | (if r.shift then 4 else 0)
    | (if r.alt then 8 else 0)
    | (if r.ctrl then 16 else 0)
  }

  method PrintDecimal(n: nat) returns (ds: seq<Byte>)
    ensures ds == Digits(n)
  {
    var rest := n;
    ds := [];
    while rest >= 10
      invariant Digits(n) == Digits(rest) + ds
    {
      ds := [0x30 + rest % 10] + ds;
      rest := rest / 10;
    }
    ds := [0x30 + rest] + ds;
  }

  const BRACKET: Byte := 0x5b
  const LESS: Byte := 0x3c
  const UPPER_M: Byte := 0x4d
  const LOWER_M: Byte := 0x6d

  function SgrBytes(r: Report): seq<Byte> {
    [ESC, BRACKET, LESS] + Digits(Flags(r) as int) + [SEMICOLON] + Digits(r.col + 1) + [SEMICOLON]
    + Digits(r.row + 1) + [if r.kind == Release then LOWER_M else UPPER_M]
  }

  /** Releases are button 3 here, and coordinates stop at 95. */
  function LegacyFlags(r: Report): bv8 {
    if r.kind == Release then 3 else Flags(r)
  }

  function LegacyBytes(r: Report): seq<Byte>
    requires LegacyFlags(r) < 224
  {
    [ESC, BRACKET, UPPER_M, LegacyFlags(r) as int + 32, Min(r.col + 1, 95) + 32, Min(r.row + 1, 95) + 32]
  }

  /** The flag bits are or-ed in one by one. */
  method SetFlags(r: Report) returns (cb: bv8)
    ensures cb == Flags(r)
  {
    cb := r.button;
    if r.kind == Motion { cb := cb | 32; }
    if r.shift { cb := cb | 4; }
    if r.alt { cb := cb | 8; }
    if r.ctrl { cb := cb | 16; }
  }

  /** The encoder; nothing when the legacy flag byte plus 32 overflows a byte. */
  method EncodeMouseReport(r: Report, sgr: bool) returns (report: Option<seq<Byte>>)
    ensures report.None? <==> !sgr && LegacyFlags(r) >= 224
    ensures report.Some? ==> report.value == if sgr then SgrBytes(r) else LegacyBytes(r)
  {
    hide Flags, Digits;
    var cb := SetFlags(r);
    var bytes: seq<Byte>;
    if sgr {
      bytes := [ESC, BRACKET, LESS];
      var ds := PrintDecimal(cb as int);
      bytes := bytes + ds + [SEMICOLON];
      ds := PrintDecimal(r.col + 1);
      bytes := bytes + ds + [SEMICOLON];
      ds := PrintDecimal(r.row + 1);
      bytes := bytes + ds + [if r.kind == Release then LOWER_M else UPPER_M];
    } else {
      var flags := if r.kind == Release then 3 else cb;
      if flags as int + 32 > 255 {
        return None;
      }
      bytes := [ESC, BRACKET, UPPER_M, flags as int + 32, Min(r.col + 1, 95) + 32, Min(r.row + 1, 95) + 32];
    }
    report := Some(bytes);
  }

  /** The first button whose legacy press cannot be encoded. */
  lemma Button224Overflows(col: nat, row: nat)
    ensures LegacyFlags(Report(Press, 224, col, row, false, false, false)) == 224
    ensures LegacyFlags(Report(Press, 223, col, row, false, false, false)) == 223
  {
    assert 224 as bv8 | 0 == 224 && 223 as bv8 | 0 == 223;
  }

  // ---- decoding ----------------------------------------------------------

  /** The leading number and what follows it. */
  function TakeNumber(bytes: seq<Byte>): (r: (nat, seq<Byte>)) {
    var e := DigitsEnd(bytes, 0);
    (Decimal(bytes[..e]), bytes[e..])
  }

  predicate StartsWith(bytes: seq<Byte>, b: Byte) {
    bytes != [] && bytes[0] == b
  }

  /** The button is what is left when the modifier and motion bits are masked out. */
  function ReportOf(flags: bv8, final: Byte, col: nat, row: nat): Report {
    var kind := if final == LOWER_M then Release else if flags & 32 != 0 then Motion else Press;
    Report(kind, flags & 0xc3, col, row, flags & 4 != 0, flags & 8 != 0, flags & 16 != 0)
  }

  function DecodeSgr(bytes: seq<Byte>): Option<Report> {
    if |bytes| < 3 || bytes[..3] != [ESC, BRACKET, LESS] then None else
      var (flags, r1) := TakeNumber(bytes[3..]);
      if flags > 255 || !StartsWith(r1, SEMICOLON) then None else
        var (col, r2) := TakeNumber(r1[1..]);
        if col == 0 || !StartsWith(r2, SEMICOLON) then None else
          var (row, r3) := TakeNumber(r2[1..]);
          if row == 0 || |r3| != 1 || r3[0] !in {UPPER_M, LOWER_M} then None
          else Some(ReportOf(flags as bv8, r3[0], col - 1, row - 1))
  }

  /** A printed number followed by a non-digit is read back. */
  lemma TakesPrinted(n: nat, sep: Byte, rest: seq<Byte>)
    requires !IsDigit(sep)
    ensures TakeNumber(Digits(n) + ([sep] + rest)) == (n, [sep] + rest)
    ensures ([sep] + rest)[1..] == rest
  {
    hide Digits;
    var ds := Digits(n);
    var bytes := ds + ([sep] + rest);
    forall i | 0 <= i < |ds| ensures IsDigit(bytes[i]) {
      assert bytes[i] == ds[i];
    }
    DigitsEndSkips(bytes, 0, |ds|);
    assert bytes[..|ds|] == ds && bytes[|ds|..] == [sep] + rest;
    DecimalOfDigits(n);
  }

  lemma ByteAsNumber(b: bv8)
    ensures 0 <= b as int < 256 && (b as int) as bv8 == b
  {
  }

  lemma SgrBytesNested(r: Report, final: Byte)
    requires final == if r.kind == Release then LOWER_M else UPPER_M
    ensures SgrBytes(r) == [ESC, BRACKET, LESS] + (Digits(Flags(r) as int) + ([SEMICOLON]
                           + (Digits(r.col + 1) + ([SEMICOLON] + (Digits(r.row + 1) + ([final] + []))))))
  {
    hide Digits, Flags;
  }

  /** Decoding finds the four fields of the encoding. */
  lemma DecodeFindsFields(r: Report, final: Byte)
    requires final == if r.kind == Release then LOWER_M else UPPER_M
    ensures DecodeSgr(SgrBytes(r)) == Some(ReportOf(Flags(r), final, r.col, r.row))
  {
    hide Flags, Digits, TakeNumber, ReportOf, SgrBytes;
    var f := Flags(r) as int;
    ByteAsNumber(Flags(r));
    SgrBytesNested(r, final);
    var t3 := Digits(r.row + 1) + ([final] + []);
    var t2 := Digits(r.col + 1) + ([SEMICOLON] + t3);
    var t1 := Digits(f) + ([SEMICOLON] + t2);
    assert ([ESC, BRACKET, LESS] + t1)[3..] == t1 && ([ESC, BRACKET, LESS] + t1)[..3] == [ESC, BRACKET, LESS];
    TakesPrinted(f, SEMICOLON, t2);
    TakesPrinted(r.col + 1, SEMICOLON, t3);
    TakesPrinted(r.row + 1, final, []);
  }

  lemma FlagBitsAreDisjointIff(b: bv8, m: bv8, s: bv8, a: bv8, c: bv8, flags: bv8)
    requires (m == 0 || m == 32) && (s == 0 || s == 4) && (a == 0 || a == 8) && (c == 0 || c == 16)
    requires flags == b | m | s | a | c
    ensures flags & 0xc3 == b & 0xc3
    ensures b & 0x3c == 0 ==>
              (flags & 32 != 0 <==> m != 0) && (flags & 4 != 0 <==> s != 0)
              && (flags & 8 != 0 <==> a != 0) && (flags & 16 != 0 <==> c != 0)
    ensures b & 0xc3 == b <==> b & 0x3c == 0
  {
  }

  /** The SGR encoding can be decoded exactly for buttons that leave the modifier and
      motion bits clear: the five buttons in use, and no button that sets such a bit. */
  lemma SgrRoundTripIff(r: Report)
    ensures DecodeSgr(SgrBytes(r)) == Some(r) <==> r.button & 0x3c == 0
  {
    DecodeFindsFields(r, if r.kind == Release then LOWER_M else UPPER_M);
    hide DecodeSgr, SgrBytes;
    FlagBitsAreDisjointIff(r.button, if r.kind == Motion then 32 else 0, if r.shift then 4 else 0,
                           if r.alt then 8 else 0, if r.ctrl then 16 else 0, Flags(r));
  }

  lemma ButtonsInUseAreDecodable(r: Report)
    requires r.button in {0, 1, 2, 64, 65}
    ensures DecodeSgr(SgrBytes(r)) == Some(r) && LegacyFlags(r) < 224
  {
    assert r.button & 0x3c == 0;
    SgrRoundTripIff(r);
  }

  /** What a reader makes of the legacy form. */
  function DecodeLegacy(bytes: seq<Byte>): Option<Report> {
    if |bytes| != 6 || bytes[..3] != [ESC, BRACKET, UPPER_M] then None
    else if bytes[3] < 32 || bytes[4] < 33 || bytes[5] < 33 then None
    else
      var flags := (bytes[3] - 32) as bv8;
      var r := ReportOf(flags, UPPER_M, bytes[4] - 33, bytes[5] - 33);
      Some(if flags == 3 then r.(kind := Release) else r)
  }

  /** For the buttons in use a press or motion below the limit is read back whole; a
      release loses its button and modifiers. */
  lemma LegacyRoundTrip(r: Report)
    requires r.button in {0, 1, 2, 64, 65} && r.col < 95 && r.row < 95
    ensures LegacyFlags(r) < 224
    ensures DecodeLegacy(LegacyBytes(r))
            == Some(if r.kind == Release then Report(Release, 3, r.col, r.row, false, false, false) else r)
  {
    hide LegacyBytes, DecodeSgr, SgrBytes;
    ButtonsInUseAreDecodable(r);
    LegacyHeader(r);
    ByteAsNumber(LegacyFlags(r));
    if r.kind == Release {
      assert (3 as bv8) & 0xc3 == 3 && (3 as bv8) & 4 == 0 && (3 as bv8) & 8 == 0 && (3 as bv8) & 16 == 0;
    } else {
      FlagBitsAreDisjointIff(r.button, if r.kind == Motion then 32 else 0, if r.shift then 4 else 0,
                             if r.alt then 8 else 0, if r.ctrl then 16 else 0, Flags(r));
      LowBits(r.button, Flags(r));
    }
  }

  lemma LegacyHeader(r: Report)
    requires LegacyFlags(r) < 224 && r.col < 95 && r.row < 95
    ensures var bytes := LegacyBytes(r);
            && |bytes| == 6 && bytes[..3] == [ESC, BRACKET, UPPER_M] && bytes[3] == LegacyFlags(r) as int + 32
            && bytes[4] == r.col + 33 && bytes[5] == r.row + 33
  {
  }

  lemma LowBits(b: bv8, flags: bv8)
    requires flags & 0xc3 == b & 0xc3 && b in {0, 1, 2, 64, 65}
    ensures flags != 3 && b & 0xc3 == b && b & 0x3c == 0
  {
  }

  /** Legacy bytes fit seven bits for coordinates; two positions are told apart exactly
      below the 95-cell limit. */
  lemma LegacyCoordinatesSurviveIff(r: Report)
    requires LegacyFlags(r) < 224
    ensures var bytes := LegacyBytes(r);
            && |bytes| == 6 && bytes[4] < 128 && bytes[5] < 128
            && (bytes[4] - 33 == r.col && bytes[5] - 33 == r.row <==> r.col < 95 && r.row < 95)
  {
  }
}
