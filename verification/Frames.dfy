/** The session-log file: an 8-byte header and length-prefixed ciphertexts. */
module Frames {
  import opened Sequences
  import opened Markers

  const HEADER: seq<Byte> := [0x52, 0x55, 0x53, 0x4c, 1, 0, 0, 0]  // "RUSL", version, reserved
  const LIMIT: nat := 0x1_0000_0000

  function BigEndian(n: nat): (b: seq<Byte>)
    requires n < LIMIT
    ensures |b| == 4
  {
    [n / 256 / 256 / 256, n / 256 / 256 % 256, n / 256 % 256, n % 256]
  }

  function FromBigEndian(b: seq<Byte>): (n: nat)
    requires |b| == 4
    ensures n < LIMIT
  {
    ((b[0] as int * 256 + b[1] as int) * 256 + b[2] as int) * 256 + b[3] as int
  }

  lemma BigEndianInverse(n: nat)
    requires n < LIMIT
    ensures FromBigEndian(BigEndian(n)) == n
  {
  }

  /** Sealing stands for JSON, base64 and AES-GCM together, an entry for everything
      they are given (direction, bytes, timestamp, nonce); opening is their inverse. */
  type Seal<!E> = E -> seq<Byte>
  type Open<!E> = seq<Byte> -> Option<E>

  ghost predicate Inverse<E(!new)>(seal: Seal<E>, open: Open<E>) {
    forall e: E :: open(seal(e)) == Some(e)
  }

  /** An empty or over-long ciphertext is dropped by the writer. */
  predicate Writable(c: seq<Byte>) {
    0 < |c| < LIMIT
  }

  function Frame(c: seq<Byte>): seq<Byte> {
    if Writable(c) then BigEndian(|c|) + c else []
  }

  function FramesOf<E>(entries: seq<E>, seal: Seal<E>): seq<Byte> {
    if entries == [] then [] else Frame(seal(entries[0])) + FramesOf(entries[1..], seal)
  }

  function FileOf<E>(entries: seq<E>, seal: Seal<E>): seq<Byte> {
    HEADER + FramesOf(entries, seal)
  }

  /** The entries that reach the file. */
  function Written<E>(entries: seq<E>, seal: Seal<E>): seq<E> {
    if entries == [] then []
    else (if Writable(seal(entries[0])) then [entries[0]] else []) + Written(entries[1..], seal)
  }

  lemma {:induction false} FramesOfAppend<E>(a: seq<E>, b: seq<E>, seal: Seal<E>)
    ensures FramesOf(a + b, seal) == FramesOf(a, seal) + FramesOf(b, seal)
    ensures Written(a + b, seal) == Written(a, seal) + Written(b, seal)
  {
    if a == [] {
      assert a + b == b;
    } else {
      assert (a + b)[1..] == a[1..] + b;
      FramesOfAppend(a[1..], b, seal);
      Assoc(Frame(seal(a[0])), FramesOf(a[1..], seal), FramesOf(b, seal));
    }
  }

  /** The writer thread: drains the channel, one frame per writable entry. */
  method BackgroundWriter<E>(file: seq<Byte>, channel: seq<E>, seal: Seal<E>) returns (grown: seq<Byte>)
    ensures grown == file + FramesOf(channel, seal)
  {
    grown := file;
    var pending := channel;
    assert file + FramesOf(channel, seal) == grown + FramesOf(pending, seal);
    while pending != []
      invariant grown + FramesOf(pending, seal) == file + FramesOf(channel, seal)
    {
      var c := seal(pending[0]);
      var len := if |c| < LIMIT then |c| else 0;
      Assoc(grown, Frame(c), FramesOf(pending[1..], seal));
      if len != 0 {
        Assoc(grown, BigEndian(len), c);
        grown := grown + BigEndian(len);
        grown := grown + c;
      } else {
        assert grown + [] == grown;
      }
      pending := pending[1..];
    }
  }

  // ---- reading -----------------------------------------------------------

  datatype Decoded<+E> = TooShort | WrongMagic | WrongVersion | Undecryptable | Records(entries: seq<E>)

  /** Complete frames from the front; a truncated tail is ignored, a ciphertext that
      does not open spoils the whole file. */
  function DecodeFrames<E>(bytes: seq<Byte>, open: Open<E>): Option<seq<E>>
    decreases |bytes|
  {
    if |bytes| < 4 then Some([]) else
      var len := FromBigEndian(bytes[..4]);
      if 4 + len > |bytes| then Some([]) else
        var first, rest := open(bytes[4..4 + len]), DecodeFrames(bytes[4 + len..], open);
        if first.None? || rest.None? then None else Some([first.value] + rest.value)
  }

  function Decode<E>(bytes: seq<Byte>, open: Open<E>): Decoded<E> {
    if |bytes| < 8 then TooShort
    else if bytes[..4] != HEADER[..4] then WrongMagic
    else if bytes[4] != HEADER[4] then WrongVersion
    else match DecodeFrames(bytes[8..], open)
         case None => Undecryptable
         case Some(entries) => Records(entries)
  }

  /** The reader: a cursor that advances over the file. */
  method DecryptFile<E>(bytes: seq<Byte>, open: Open<E>) returns (r: Decoded<E>)
    ensures r == Decode(bytes, open)
  {
    hide FromBigEndian, DecodeFrames;
    if |bytes| < 8 {
      return TooShort;
    }
    if bytes[..4] != HEADER[..4] {
      return WrongMagic;
    }
    if bytes[4] != HEADER[4] {
      return WrongVersion;
    }
    var cursor := 8;
    var entries := [];
    ghost var whole := DecodeFrames(bytes[8..], open);
    assert whole.Some? ==> [] + whole.value == whole.value;
    while cursor + 4 <= |bytes|
      invariant 8 <= cursor <= |bytes|
      invariant whole == Prepend(entries, DecodeFrames(bytes[cursor..], open))
      decreases |bytes| - cursor
    {
      DecodeFirst(bytes, cursor, open);
      var len := FromBigEndian(bytes[cursor..cursor + 4]);
      if cursor + 4 + len > |bytes| {
        break;
      }
      var e := open(bytes[cursor + 4..cursor + 4 + len]);
      if e.None? {
        return Undecryptable;
      }
      PrependOne(entries, e.value, DecodeFrames(bytes[cursor + 4 + len..], open));
      entries := entries + [e.value];
      cursor := cursor + 4 + len;
    }
    NoMoreFrames(bytes, cursor, open);
    assert entries + [] == entries;
    r := Records(entries);
  }

  /** What the frame at `cursor` contributes. */
  lemma DecodeFirst<E>(bytes: seq<Byte>, cursor: nat, open: Open<E>)
    requires cursor + 4 <= |bytes|
    ensures var end := cursor + 4 + FromBigEndian(bytes[cursor..cursor + 4]);
            end <= |bytes| ==>
              var first := open(bytes[cursor + 4..end]);
              DecodeFrames(bytes[cursor..], open)
              == if first.None? then None else Prepend([first.value], DecodeFrames(bytes[end..], open))
  {
    hide FromBigEndian;
    var rest := bytes[cursor..];
    assert rest[..4] == bytes[cursor..cursor + 4];
    var len := FromBigEndian(bytes[cursor..cursor + 4]);
    if cursor + 4 + len <= |bytes| {
      assert rest[4..4 + len] == bytes[cursor + 4..cursor + 4 + len];
      assert rest[4 + len..] == bytes[cursor + 4 + len..];
    }
  }

  /** A cursor past the last whole frame. */
  lemma NoMoreFrames<E>(bytes: seq<Byte>, cursor: nat, open: Open<E>)
    requires cursor <= |bytes|
    requires cursor + 4 <= |bytes| ==> cursor + 4 + FromBigEndian(bytes[cursor..cursor + 4]) > |bytes|
    ensures DecodeFrames(bytes[cursor..], open) == Some([])
  {
    hide FromBigEndian;
    if cursor + 4 <= |bytes| {
      assert bytes[cursor..][..4] == bytes[cursor..cursor + 4];
    }
  }

  ghost function Prepend<E>(entries: seq<E>, rest: Option<seq<E>>): Option<seq<E>> {
    if rest.None? then None else Some(entries + rest.value)
  }

  lemma PrependOne<E>(entries: seq<E>, e: E, rest: Option<seq<E>>)
    ensures Prepend(entries + [e], rest) == Prepend(entries, Prepend([e], rest))
  {
    if rest.Some? {
      Assoc(entries, [e], rest.value);
    }
  }

  // ---- round trip and truncation -----------------------------------------

  /** How many written entries have their whole frame inside the first `n` body bytes. */
  function WholeFrames<E>(entries: seq<E>, n: nat, seal: Seal<E>): (k: nat)
    ensures k <= |Written(entries, seal)|
    ensures n >= |FramesOf(entries, seal)| ==> k == |Written(entries, seal)|
  {
    if entries == [] then 0 else
      var c := seal(entries[0]);
      if !Writable(c) then WholeFrames(entries[1..], n, seal)
      else if n < 4 + |c| then 0
      else 1 + WholeFrames(entries[1..], n - 4 - |c|, seal)
  }

  /** A whole frame at the front is opened and followed by the rest. */
  lemma FrameFirst<E>(c: seq<Byte>, rest: seq<Byte>, open: Open<E>)
    requires Writable(c)
    ensures DecodeFrames(Frame(c) + rest, open)
            == if open(c).None? then None else Prepend([open(c).value], DecodeFrames(rest, open))
  {
    hide BigEndian, FromBigEndian;
    BigEndianInverse(|c|);
    var bytes := Frame(c) + rest;
    assert bytes[..4] == BigEndian(|c|) && bytes[4..4 + |c|] == c && bytes[4 + |c|..] == rest;
  }

  /** Less than a whole frame yields nothing. */
  lemma PartOfFrame<E>(c: seq<Byte>, rest: seq<Byte>, n: nat, open: Open<E>)
    requires Writable(c) && n < 4 + |c| && n <= |Frame(c) + rest|
    ensures DecodeFrames((Frame(c) + rest)[..n], open) == Some([])
  {
    hide BigEndian, FromBigEndian;
    var cut := (Frame(c) + rest)[..n];
    if n >= 4 {
      BigEndianInverse(|c|);
      assert cut[..4] == BigEndian(|c|);
    }
  }

  lemma {:induction false} TruncatedFrames<E(!new)>(entries: seq<E>, n: nat, seal: Seal<E>, open: Open<E>)
    requires Inverse(seal, open) && n <= |FramesOf(entries, seal)|
    ensures DecodeFrames(FramesOf(entries, seal)[..n], open)
            == Some(Written(entries, seal)[..WholeFrames(entries, n, seal)])
    decreases |entries|
  {
    hide BigEndian, FromBigEndian;
    if entries != [] {
      var c, rest := seal(entries[0]), FramesOf(entries[1..], seal);
      if !Writable(c) {
        assert Frame(c) + rest == rest;
        assert [] + Written(entries[1..], seal) == Written(entries[1..], seal);
        TruncatedFrames(entries[1..], n, seal, open);
      } else if n < 4 + |c| {
        PartOfFrame(c, rest, n, open);
      } else {
        var m := n - 4 - |c|;
        TruncatedFrames(entries[1..], m, seal, open);
        FirstOfCut(entries[0], c, rest, m, Written(entries[1..], seal), WholeFrames(entries[1..], m, seal), open);
      }
    }
  }

  lemma FirstOfCut<E>(e: E, c: seq<Byte>, rest: seq<Byte>, m: nat, later: seq<E>, k: nat, open: Open<E>)
    requires Writable(c) && open(c) == Some(e) && m <= |rest| && k <= |later|
    requires DecodeFrames(rest[..m], open) == Some(later[..k])
    ensures m + 4 + |c| <= |Frame(c) + rest|
    ensures DecodeFrames((Frame(c) + rest)[..m + 4 + |c|], open) == Some(([e] + later)[..1 + k])
  {
    hide BigEndian, FromBigEndian, DecodeFrames;
    assert (Frame(c) + rest)[..m + 4 + |c|] == Frame(c) + rest[..m];
    FrameFirst(c, rest[..m], open);
    assert ([e] + later)[..1 + k] == [e] + later[..k];
  }

  /** All of them, exactly when those bytes hold all the frames. */
  lemma {:induction false} AllWholeIff<E>(entries: seq<E>, n: nat, seal: Seal<E>)
    ensures WholeFrames(entries, n, seal) == |Written(entries, seal)| <==> n >= |FramesOf(entries, seal)|
    decreases |entries|
  {
    if entries != [] {
      var c := seal(entries[0]);
      if !Writable(c) {
        AllWholeIff(entries[1..], n, seal);
      } else if n >= 4 + |c| {
        AllWholeIff(entries[1..], n - 4 - |c|, seal);
      }
    }
  }

  /** Every cut of the file at 8 bytes or more decodes to exactly the entries whose
      frames are complete, in order; the whole file decodes to everything written. */
  lemma TruncationDecodesToPrefix<E(!new)>(entries: seq<E>, n: nat, seal: Seal<E>, open: Open<E>)
    requires Inverse(seal, open) && 8 <= n <= |FileOf(entries, seal)|
    ensures Decode(FileOf(entries, seal)[..n], open)
            == Records(Written(entries, seal)[..WholeFrames(entries, n - 8, seal)])
    ensures Decode(FileOf(entries, seal), open) == Records(Written(entries, seal))
  {
    var file := FileOf(entries, seal);
    CutFile(entries, n, seal, open);
    CutFile(entries, |file|, seal, open);
    assert file[..|file|] == file;
    var all := Written(entries, seal);
    assert all[..|all|] == all;
  }

  lemma CutFile<E(!new)>(entries: seq<E>, n: nat, seal: Seal<E>, open: Open<E>)
    requires Inverse(seal, open) && 8 <= n <= |FileOf(entries, seal)|
    ensures Decode(FileOf(entries, seal)[..n], open)
            == Records(Written(entries, seal)[..WholeFrames(entries, n - 8, seal)])
  {
    var cut := FileOf(entries, seal)[..n];
    assert cut[..4] == HEADER[..4] && cut[4] == HEADER[4];
    assert cut[8..] == FramesOf(entries, seal)[..n - 8];
    TruncatedFrames(entries, n - 8, seal, open);
  }

  /** A file too short for the header, one with another magic and one with another version
      are told apart; the three reserved bytes do not matter. */
  lemma HeaderIsChecked<E>(bytes: seq<Byte>, body: seq<Byte>, k: nat, b: Byte, open: Open<E>)
    requires k < 8 && b != HEADER[k]
    ensures |bytes| < 8 ==> Decode(bytes, open) == TooShort
    ensures Decode(HEADER[k := b] + body, open)
            == if k < 4 then WrongMagic else if k == 4 then WrongVersion else Decode(HEADER + body, open)
  {
    var file := HEADER[k := b] + body;
    assert file[..4] == HEADER[k := b][..4] && file[4] == HEADER[k := b][4] && file[8..] == body;
    assert (HEADER + body)[..4] == HEADER[..4] && (HEADER + body)[8..] == body;
    if k < 4 {
      assert file[..4][k] != HEADER[..4][k];
    } else {
      assert file[..4] == HEADER[..4];
    }
  }

  /** One frame that does not open, after any good ones, spoils the whole file. */
  lemma {:induction false} BadFrameSpoilsFile<E(!new)>(
      entries: seq<E>, c: seq<Byte>, rest: seq<Byte>, seal: Seal<E>, open: Open<E>)
    requires Inverse(seal, open) && Writable(c) && open(c) == None
    ensures Decode(FileOf(entries, seal) + (Frame(c) + rest), open) == Undecryptable
  {
    hide BigEndian, FromBigEndian, DecodeFrames, FramesOf;
    var file := FileOf(entries, seal) + (Frame(c) + rest);
    BadFrameStops(entries, c, rest, seal, open);
    assert file[..4] == HEADER[..4] && file[4] == HEADER[4];
    assert file[8..] == FramesOf(entries, seal) + (Frame(c) + rest);
  }

  lemma {:induction false} BadFrameStops<E(!new)>(
      entries: seq<E>, c: seq<Byte>, rest: seq<Byte>, seal: Seal<E>, open: Open<E>)
    requires Inverse(seal, open) && Writable(c) && open(c) == None
    ensures DecodeFrames(FramesOf(entries, seal) + (Frame(c) + rest), open) == None
    decreases |entries|
  {
    hide BigEndian, FromBigEndian;
    var tail := Frame(c) + rest;
    if entries == [] {
      assert FramesOf(entries, seal) + tail == tail;
      FrameFirst(c, rest, open);
    } else {
      var first, others := seal(entries[0]), FramesOf(entries[1..], seal);
      BadFrameStops(entries[1..], c, rest, seal, open);
      assert FramesOf(entries, seal) + tail == Frame(first) + (others + tail);
      if Writable(first) {
        FrameFirst(first, others + tail, open);
      } else {
        assert Frame(first) + (others + tail) == others + tail;
      }
    }
  }
}
