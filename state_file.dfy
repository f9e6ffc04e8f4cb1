/** The update-cursor store (`<base>/state`): a fixed 24-byte file holding the
    magic, a version word and the four counters. */
module StateFile {
  import opened Bytes
  import opened Engine

  const STATE_FILE_MAGIC: uint32 := 0x28949a93

  /** The bytes write_state_file writes: magic, version 0, pts, qts, seq, date. */
  function EncodeState(c: Cursor): (b: seq<byte>)
    ensures |b| == 24
  {
    U32Bytes(STATE_FILE_MAGIC) + I32Bytes(0) + I32Bytes(c.pts) + I32Bytes(c.qts)
      + I32Bytes(c.seqNo) + I32Bytes(c.date)
  }

  /** The file read_state_file accepts: at least 24 bytes, the right magic and
      a version that is not negative. */
  predicate WellFormedState(s: seq<byte>) {
    |s| >= 24 && U32Of(s[..4]) == STATE_FILE_MAGIC && I32Of(s[4..8]) >= 0
  }

  /** The engine calls read_state_file makes, given what the file holds
      (None: the file could not be opened). Anything short or foreign is
      ignored and leaves the counters alone. */
  function StateEvents(file: Option<seq<byte>>): seq<Event> {
    match file
    case None => []
    case Some(s) =>
      if WellFormedState(s) then
        [SetSeq(I32Of(s[16..20])), SetPts(I32Of(s[8..12])), SetQts(I32Of(s[12..16])), SetDate(I32Of(s[20..24]))]
      else []
  }

  /** read_state_file: reads magic, version and the four counters in turn and
      stops at the first short read, wrong magic or negative version. */
  method ReadStateFile(file: Option<seq<byte>>) returns (events: seq<Event>)
    ensures events == StateEvents(file)
    ensures file.Some? && WellFormedState(file.value) <==> |events| == 4
  {
    if file.None? {
      return [];
    }
    var rest := file.value;
    var magic := ReadU32(rest);
    if magic.Short? || magic.value != STATE_FILE_MAGIC {
      return [];
    }
    rest := magic.rest;
    var version := ReadI32(rest);
    if version.Short? || version.value < 0 {
      return [];
    }
    rest := version.rest;
    var x := ReadBytes(rest, 16);
    if x.Short? {
      return [];
    }
    var pts := I32Of(x.value[0..4]);
    var qts := I32Of(x.value[4..8]);
    var seqNo := I32Of(x.value[8..12]);
    var date := I32Of(x.value[12..16]);
    assert file.value[4..8] == magic.rest[..4];
    assert x.value == file.value[8..24];
    assert x.value[0..4] == file.value[8..12];
    assert x.value[4..8] == file.value[12..16];
    assert x.value[8..12] == file.value[16..20];
    assert x.value[12..16] == file.value[20..24];
    events := [SetSeq(seqNo), SetPts(pts), SetQts(qts), SetDate(date)];
  }

  /** write_state_file: fills `int x[6]` with the magic, version 0 and the
      counters, and writes the 24 bytes over the old file, which was opened
      without O_TRUNC. read_state_file then finds exactly these counters. */
  method WriteStateFile(prior: seq<byte>, c: Cursor) returns (file: seq<byte>)
    ensures file == Overlay(prior, EncodeState(c))
    ensures StateEvents(Some(file)) == [SetSeq(c.seqNo), SetPts(c.pts), SetQts(c.qts), SetDate(c.date)]
  {
    var x := new int32[6];
    x[0] := STATE_FILE_MAGIC as int32;
    x[1] := 0;
    x[2] := c.pts;
    x[3] := c.qts;
    x[4] := c.seqNo;
    x[5] := c.date;
    var written := I32Bytes(x[0]) + I32Bytes(x[1]) + I32Bytes(x[2]) + I32Bytes(x[3])
                   + I32Bytes(x[4]) + I32Bytes(x[5]);
    assert written == EncodeState(c);
    file := Overlay(prior, written);
    StateRoundTrip(prior, c, Initial);
  }

  /** Where each word sits in the encoded state. */
  lemma {:induction false} EncodedWords(c: Cursor)
    ensures var b := EncodeState(c);
      b[..4] == U32Bytes(STATE_FILE_MAGIC) && b[4..8] == I32Bytes(0)
      && b[8..12] == I32Bytes(c.pts) && b[12..16] == I32Bytes(c.qts)
      && b[16..20] == I32Bytes(c.seqNo) && b[20..24] == I32Bytes(c.date)
  {
  }

  /** The words of a state file written over `prior`. */
  lemma {:induction false} WrittenWords(prior: seq<byte>, c: Cursor)
    ensures var f := Overlay(prior, EncodeState(c));
      |f| >= 24 && f[..4] == U32Bytes(STATE_FILE_MAGIC) && f[4..8] == I32Bytes(0)
      && f[8..12] == I32Bytes(c.pts) && f[12..16] == I32Bytes(c.qts)
      && f[16..20] == I32Bytes(c.seqNo) && f[20..24] == I32Bytes(c.date)
  {
    var b := EncodeState(c);
    var f := Overlay(prior, b);
    OverlayTake(prior, b);
    EncodedWords(c);
    SliceInPrefix(f, b, 0, 4);
    SliceInPrefix(f, b, 4, 8);
    SliceInPrefix(f, b, 8, 12);
    SliceInPrefix(f, b, 12, 16);
    SliceInPrefix(f, b, 16, 20);
    SliceInPrefix(f, b, 20, 24);
  }

  /** Writing a cursor and reading the file back restores exactly that
      cursor, whatever the file held before the write. */
  lemma {:induction false} StateRoundTrip(prior: seq<byte>, c: Cursor, st: EngineState)
    ensures StateEvents(Some(Overlay(prior, EncodeState(c))))
         == [SetSeq(c.seqNo), SetPts(c.pts), SetQts(c.qts), SetDate(c.date)]
    ensures ApplyAll(st, StateEvents(Some(Overlay(prior, EncodeState(c))))).cursor == c
  {
    WrittenWords(prior, c);
    U32RoundTrip(STATE_FILE_MAGIC);
    I32RoundTrip(0);
    I32RoundTrip(c.pts);
    I32RoundTrip(c.qts);
    I32RoundTrip(c.seqNo);
    I32RoundTrip(c.date);
    var f := Overlay(prior, EncodeState(c));
    assert WellFormedState(f);
    CursorRestored(st, c);
  }

  /** The four calls of read_state_file set the cursor and nothing else. */
  lemma {:induction false} CursorRestored(st: EngineState, c: Cursor)
    ensures ApplyAll(st, [SetSeq(c.seqNo), SetPts(c.pts), SetQts(c.qts), SetDate(c.date)]) == st.(cursor := c)
  {
    ApplyFour(st, SetSeq(c.seqNo), SetPts(c.pts), SetQts(c.qts), SetDate(c.date));
  }

  /** A file that is shorter than 24 bytes, carries another magic or a
      negative version changes none of the counters. */
  lemma {:induction false} StateRejected(s: seq<byte>, st: EngineState)
    requires |s| < 24 || (|s| >= 4 && U32Of(s[..4]) != STATE_FILE_MAGIC) || (|s| >= 8 && I32Of(s[4..8]) < 0)
    ensures StateEvents(Some(s)) == []
    ensures ApplyAll(st, StateEvents(Some(s))) == st
  {
  }
}
