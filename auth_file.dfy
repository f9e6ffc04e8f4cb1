/** The DC store (`<base>/auth`): the magic, the highest DC number, the
    working DC, one slot per DC number from 0 up to the highest (a zero flag
    for an empty slot; otherwise port, address, key id and key), and last the
    user's own id. */
module AuthFile {
  import opened Bytes
  import opened Engine

  const DC_SERIALIZED_MAGIC: uint32 := 0x868aa81d

  /*** Writing ***/

  /** A present DC that is not signed (`has_auth` unset): write_dc aborts
      on it. */
  predicate UnsignedSlot(slot: Option<DcInfo>) {
    slot.Some? && !slot.value.signed
  }

  /** TLS->DC_list[0..max_dc_num], in the order tgl_dc_iterator_ex visits it. */
  function DcSlots(st: EngineState): (slots: seq<Option<DcInfo>>)
    ensures |slots| == if st.maxDcNum < 0 then 0 else st.maxDcNum as int + 1
    ensures forall k | 0 <= k < |slots| :: slots[k] == if k in st.dcs then Some(st.dcs[k]) else None
  {
    seq(if st.maxDcNum < 0 then 0 else st.maxDcNum as int + 1,
        k => if k in st.dcs then Some(st.dcs[k]) else None)
  }

  /** The 256 bytes of `DC->auth_key`: the key, or zeros while the DC has
      none. */
  function KeyBytes(d: DcInfo): AuthKey {
    if d.authKey.Some? then d.authKey.value else ZeroKey()
  }

  /** The bytes write_dc writes after the presence flag of a signed DC:
      port, address length, the address up to its first NUL, key id and the
      256-byte key. */
  function DcBytes(d: DcInfo): seq<byte> {
    I32Bytes(d.port) + (I32Bytes(|CStr(d.ip)|) + (CStr(d.ip) + (I64Bytes(d.authKeyId) + KeyBytes(d))))
  }

  /** Bytes sent through a descriptor, and whether the process aborted on a
      failed assertion after sending them. */
  datatype Written = Written(bytes: seq<byte>, crashed: bool)

  /** What write_dc writes for each slot in turn. A present DC that is not
      signed gets its flag written and then aborts the process. */
  function SlotsWritten(slots: seq<Option<DcInfo>>): Written
    decreases |slots|
  {
    if slots == [] then Written([], false)
    else
      var rest := SlotsWritten(slots[1..]);
      if UnsignedSlot(slots[0]) then Written(I32Bytes(1), true)
      else Written(SlotBytes(slots[0]) + rest.bytes, rest.crashed)
  }

  /** What write_dc writes for a slot it does not abort on: a zero flag for
      an empty slot, otherwise flag 1 and the DC's fields. */
  function SlotBytes(slot: Option<DcInfo>): seq<byte>
    requires !UnsignedSlot(slot)
  {
    if slot.None? then I32Bytes(0) else I32Bytes(1) + DcBytes(slot.value)
  }

  function AuthHeader(st: EngineState): seq<byte> {
    U32Bytes(DC_SERIALIZED_MAGIC) + I32Bytes(st.maxDcNum) + I32Bytes(st.workingDc)
  }

  /** Everything write_auth_file sends to the auth file: header, slots and
      our id, unless a slot aborted the process first. */
  function AuthFileWrites(st: EngineState): Written
  {
    var body := SlotsWritten(DcSlots(st));
    if body.crashed then Written(AuthHeader(st) + body.bytes, true)
    else Written(AuthHeader(st) + body.bytes + I32Bytes(st.ourId), false)
  }

  /** The slot writer aborts exactly when some present DC is not signed. */
  lemma {:induction false} SlotsWrittenCrashIff(slots: seq<Option<DcInfo>>)
    ensures SlotsWritten(slots).crashed <==> exists k :: 0 <= k < |slots| && UnsignedSlot(slots[k])
    decreases |slots|
  {
    if slots != [] {
      assert forall k | 0 <= k < |slots| - 1 :: slots[1..][k] == slots[k + 1];
      SlotsWrittenCrashIff(slots[1..]);
      if SlotsWritten(slots[1..]).crashed {
        var k :| 0 <= k < |slots| - 1 && UnsignedSlot(slots[1..][k]);
        assert UnsignedSlot(slots[k + 1]);
      }
      if exists k :: 0 <= k < |slots| && UnsignedSlot(slots[k]) {
        var k :| 0 <= k < |slots| && UnsignedSlot(slots[k]);
        if k > 0 {
          assert UnsignedSlot(slots[1..][k - 1]);
        }
      }
    }
  }

  /** write_auth_file aborts part-way exactly when a DC numbered from 0 to
      max_dc_num is not signed. */
  lemma {:induction false} AuthFileCrashIff(st: EngineState)
    ensures AuthFileWrites(st).crashed
        <==> exists k :: 0 <= k <= st.maxDcNum && k in st.dcs && !st.dcs[k].signed
  {
    var slots := DcSlots(st);
    SlotsWrittenCrashIff(slots);
    if exists k :: 0 <= k <= st.maxDcNum && k in st.dcs && !st.dcs[k].signed {
      var k :| 0 <= k <= st.maxDcNum && k in st.dcs && !st.dcs[k].signed;
      assert UnsignedSlot(slots[k]);
    }
  }

  /** write_dc: the flag, then (for a signed DC) its fields; a DC that is
      not signed aborts the process once its flag is written. */
  method WriteDc(w: seq<byte>, slot: Option<DcInfo>) returns (w': seq<byte>, crashed: bool)
    ensures crashed == UnsignedSlot(slot)
    ensures w' == w + if crashed then I32Bytes(1) else SlotBytes(slot)
  {
    if slot.None? {
      return w + I32Bytes(0), false;
    }
    w' := w + I32Bytes(1);
    var dc := slot.value;
    if !dc.signed {
      return w', true;
    }
    var fields := WriteDcFields(dc);
    AppendAssoc(w, I32Bytes(1), fields);
    w' := w' + fields;
    crashed := false;
  }

  /** The field writes of write_dc for a signed DC. */
  method WriteDcFields(dc: DcInfo) returns (b: seq<byte>)
    ensures b == DcBytes(dc)
  {
    var ip := CStr(dc.ip);
    b := I32Bytes(dc.port);
    ghost var b1 := b;
    b := b + I32Bytes(|ip|);
    ghost var b2 := b;
    b := b + ip;
    ghost var b3 := b;
    b := b + I64Bytes(dc.authKeyId);
    var key := if dc.authKey.Some? then dc.authKey.value else ZeroKey();
    b := b + key;
    AppendAssoc(b3, I64Bytes(dc.authKeyId), key);
    AppendAssoc(b2, ip, I64Bytes(dc.authKeyId) + key);
    AppendAssoc(b1, I32Bytes(|ip|), ip + (I64Bytes(dc.authKeyId) + key));
  }

  /** tgl_dc_iterator_ex calling write_dc on each slot in turn, up to the
      first abort. */
  method WriteSlots(slots: seq<Option<DcInfo>>) returns (w: seq<byte>, crashed: bool)
    ensures Written(w, crashed) == SlotsWritten(slots)
  {
    w := [];
    var i := 0;
    while i < |slots|
      invariant 0 <= i <= |slots|
      invariant SlotsWritten(slots) == Written(w + SlotsWritten(slots[i..]).bytes, SlotsWritten(slots[i..]).crashed)
    {
      var x := slots[i];
      assert slots[i..][0] == x && slots[i..][1..] == slots[i + 1..];
      ghost var w0 := w;
      w, crashed := WriteDc(w, x);
      if crashed {
        return;
      }
      AppendAssoc(w0, SlotBytes(x), SlotsWritten(slots[i + 1..]).bytes);
      i := i + 1;
    }
    assert w + [] == w;
    crashed := false;
  }

  /** write_auth_file: the auth file after the call (it is opened without
      O_TRUNC, so bytes beyond the new end survive), and whether a DC that is
      not signed aborted the process part-way. */
  method WriteAuthFile(prior: seq<byte>, st: EngineState) returns (file: seq<byte>, crashed: bool)
    ensures file == Overlay(prior, AuthFileWrites(st).bytes)
    ensures crashed == AuthFileWrites(st).crashed
  {
    var w := U32Bytes(DC_SERIALIZED_MAGIC);
    w := w + I32Bytes(st.maxDcNum);
    w := w + I32Bytes(st.workingDc);
    var body;
    body, crashed := WriteSlots(DcSlots(st));
    w := w + body;
    if !crashed {
      w := w + I32Bytes(st.ourId);
    }
    file := Overlay(prior, w);
  }

  /*** Reading ***/

  /** The built-in server table empty_auth_file falls back on: the addresses
      behind TG_SERVER_TEST_1..3 and TG_SERVER_1..5 and the two default DC
      numbers (they are defined in a header that is not part of this model). */
  datatype Config = Config(
    testMode: bool,
    testServers: seq<CString>,
    servers: seq<CString>,
    testDefaultDc: int32,
    defaultDc: int32)

  predicate ValidConfig(cfg: Config) {
    |cfg.testServers| == 3 && |cfg.servers| == 5
  }

  /** The engine calls of empty_auth_file: DC i + 1 at the i-th built-in
      address on port 443, then the default working DC. */
  function DefaultEvents(cfg: Config): seq<Event>
    requires ValidConfig(cfg)
  {
    var servers := if cfg.testMode then cfg.testServers else cfg.servers;
    ServerOptions(servers) + [SetWorkingDc(if cfg.testMode then cfg.testDefaultDc else cfg.defaultDc)]
  }

  function ServerOptions(servers: seq<CString>): seq<Event>
    requires |servers| <= 5
  {
    seq(|servers|, i requires 0 <= i < |servers| => DcOption(i + 1, 0, "", servers[i], 443))
  }

  /** The layout read_dc expects for DC `id`: port, address length l in
      [0, 100), l address bytes, an 8-byte key id (read, not passed on) and
      the 256-byte key; fewer bytes than that, or another l, aborts. */
  function DcEvents(s: seq<byte>, id: int32): Partial {
    if |s| < 8 then Aborted
    else
      var l := I32Of(s[4..8]);
      if !(0 <= l < 100) || |s| < 272 + l then Aborted
      else Progress([DcOption(id, 2, "DC", s[8..8 + l], I32Of(s[..4])),
                      SetAuthKey(id, s[16 + l..272 + l]), DcSigned(id)],
                     s[272 + l..])
  }

  /** One pass of the slot loop of read_auth_file: the presence flag, then
      read_dc when it is not zero. */
  function SlotEvents(s: seq<byte>, id: int32): Partial {
    match ReadI32(s)
    case Short => Aborted
    case Got(y, r) => if y == 0 then Progress([], r) else DcEvents(r, id)
  }

  /** The slot loop of read_auth_file from slot `i` on, with `n` slots to go. */
  function DcsEvents(s: seq<byte>, i: nat, n: nat): Partial
    requires i + n <= 0x8000_0000
    decreases n
  {
    if n == 0 then Progress([], s)
    else match SlotEvents(s, i as int32)
      case Aborted => Aborted
      case Progress(es, r) => Prepend(es, DcsEvents(r, i + 1, n - 1))
  }

  /** How many times `for (i = 0; i <= (int)x; i++)` runs. */
  function SlotCount(x: uint32): (n: nat)
    ensures n <= 0x8000_0000
  {
    if x < 0x8000_0000 then x as int + 1 else 0
  }

  function OurIdEvents(ourId: int32): seq<Event> {
    if ourId != 0 then [SetOurId(ourId)] else []
  }

  /** read_auth_file exactly as written: `garbage` is whatever the
      uninitialised `our_id` holds when the final read finds the end of the
      file. (`file` is None when the file cannot be opened.) */
  function AuthEventsAsWritten(file: Option<seq<byte>>, cfg: Config, garbage: int32): Outcome
    requires ValidConfig(cfg)
  {
    if file.None? || |file.value| < 4 || U32Of(file.value[..4]) != DC_SERIALIZED_MAGIC then
      Done(DefaultEvents(cfg))
    else AfterMagic(file.value[4..], garbage)
  }

  /** read_auth_file after the magic: max_dc_num (must not be 0), the
      working DC, the slot loop and the rest. */
  function AfterMagic(s: seq<byte>, garbage: int32): Outcome {
    match ReadU32(s)
    case Short => Abort
    case Got(x, r1) =>
      if x == 0 then Abort
      else match ReadI32(r1)
        case Short => Abort
        case Got(working, r2) => AfterSlots(DcsEvents(r2, 0, SlotCount(x)), working, garbage)
  }

  /** The end of read_auth_file once the slot loop has run: the working DC,
      then our id from the last four bytes (a read of 1 to 3 bytes aborts;
      a read of none leaves `our_id` as it was, here `garbage`). */
  function AfterSlots(slots: Partial, working: int32, garbage: int32): Outcome {
    match slots
    case Aborted => Abort
    case Progress(es, r) =>
      if 0 < |r| < 4 then Abort
      else Done(es + [SetWorkingDc(working)] + OurIdEvents(if r == [] then garbage else I32Of(r[..4])))
  }

  /** read_auth_file with `our_id` starting at 0, so that a file ending right
      after the slots sets no user id. */
  function AuthEvents(file: Option<seq<byte>>, cfg: Config): Outcome
    requires ValidConfig(cfg)
  {
    AuthEventsAsWritten(file, cfg, 0)
  }

  /** read_dc, reading field by field from the unread part of the file. */
  method ReadDc(s: seq<byte>, id: int32) returns (r: Partial)
    ensures r == DcEvents(s, id)
  {
    var port := ReadI32(s);
    if port.Short? {
      return Aborted;
    }
    var l := ReadI32(port.rest);
    if l.Short? {
      return Aborted;
    }
    assert s[4..][..4] == s[4..8] && s[4..][4..] == s[8..];
    if !(0 <= l.value < 100) {
      return Aborted;
    }
    var ip := ReadBytes(l.rest, l.value);
    if ip.Short? {
      return Aborted;
    }
    assert s[8..][..l.value] == s[8..8 + l.value] && s[8..][l.value..] == s[8 + l.value..];
    var keyId := ReadI64(ip.rest);
    if keyId.Short? {
      return Aborted;
    }
    assert s[8 + l.value..][8..] == s[16 + l.value..];
    var key := ReadBytes(keyId.rest, 256);
    if key.Short? {
      return Aborted;
    }
    assert s[16 + l.value..][..256] == s[16 + l.value..272 + l.value];
    assert s[16 + l.value..][256..] == s[272 + l.value..];
    r := Progress([DcOption(id, 2, "DC", ip.value, port.value), SetAuthKey(id, key.value), DcSigned(id)],
                   key.rest);
  }

  /** One pass of the slot loop: the flag, then read_dc if it is set. */
  method ReadSlot(s: seq<byte>, id: int32) returns (r: Partial)
    ensures r == SlotEvents(s, id)
  {
    var y := ReadI32(s);
    if y.Short? {
      return Aborted;
    }
    if y.value == 0 {
      return Progress([], y.rest);
    }
    r := ReadDc(y.rest, id);
  }

  lemma {:induction false} DcsEventsStep(s: seq<byte>, i: nat, n: nat, step: Partial)
    requires 0 < n && i + n <= 0x8000_0000 && step == SlotEvents(s, i as int32)
    ensures step.Aborted? ==> DcsEvents(s, i, n) == Aborted
    ensures step.Progress? ==> DcsEvents(s, i, n) == Prepend(step.events, DcsEvents(step.rest, i + 1, n - 1))
  {
  }

  lemma {:induction false} SlotsAbort(s: seq<byte>, n: nat, es: seq<Event>, rest: seq<byte>, i: nat, left: nat)
    requires 0 < left && i + left <= 0x8000_0000 && n <= 0x8000_0000
    requires DcsEvents(s, 0, n) == Prepend(es, DcsEvents(rest, i, left))
    requires SlotEvents(rest, i as int32).Aborted?
    ensures DcsEvents(s, 0, n) == Aborted
  {
    DcsEventsStep(rest, i, left, SlotEvents(rest, i as int32));
  }

  lemma {:induction false} SlotsAdvance(s: seq<byte>, n: nat, es: seq<Event>, rest: seq<byte>, i: nat, left: nat)
    requires 0 < left && i + left <= 0x8000_0000 && n <= 0x8000_0000
    requires DcsEvents(s, 0, n) == Prepend(es, DcsEvents(rest, i, left))
    requires SlotEvents(rest, i as int32).Progress?
    ensures var slot := SlotEvents(rest, i as int32);
      DcsEvents(s, 0, n) == Prepend(es + slot.events, DcsEvents(slot.rest, i + 1, left - 1))
  {
    var slot := SlotEvents(rest, i as int32);
    DcsEventsStep(rest, i, left, slot);
    PrependTwice(es, slot.events, DcsEvents(slot.rest, i + 1, left - 1));
  }

  /** The slot loop `for (i = 0; i <= (int)x; i++)` of read_auth_file, run
      `n` times. */
  method ReadSlots(s: seq<byte>, n: nat) returns (r: Partial)
    requires n <= 0x8000_0000
    ensures r == DcsEvents(s, 0, n)
  {
    var rest := s;
    var es: seq<Event> := [];
    var i := 0;
    ghost var left := n;
    while i < n
      invariant 0 <= i <= n && left == n - i
      invariant DcsEvents(s, 0, n) == Prepend(es, DcsEvents(rest, i, left))
    {
      var slot := ReadSlot(rest, i as int32);
      if slot.Aborted? {
        SlotsAbort(s, n, es, rest, i, left);
        return Aborted;
      }
      SlotsAdvance(s, n, es, rest, i, left);
      es := es + slot.events;
      rest := slot.rest;
      i := i + 1;
      left := left - 1;
    }
    r := Progress(es, rest);
  }

  /** read_auth_file (with `our_id` starting at 0). */
  method ReadAuthFile(file: Option<seq<byte>>, cfg: Config) returns (r: Outcome)
    requires ValidConfig(cfg)
    ensures r == AuthEvents(file, cfg)
  {
    if file.None? || |file.value| < 4 || U32Of(file.value[..4]) != DC_SERIALIZED_MAGIC {
      return Done(DefaultEvents(cfg));
    }
    var x := ReadU32(file.value[4..]);
    if x.Short? || x.value == 0 {
      return Abort;
    }
    var working := ReadI32(x.rest);
    if working.Short? {
      return Abort;
    }
    var slots := ReadSlots(working.rest, SlotCount(x.value));
    if slots.Aborted? {
      return Abort;
    }
    var rest := slots.rest;
    var ourId: int32 := 0;
    if |rest| >= 4 {
      ourId := I32Of(rest[..4]);
    } else if |rest| > 0 {
      return Abort;
    }
    r := Done(slots.events + [SetWorkingDc(working.value)] + OurIdEvents(ourId));
  }

  /*** Properties ***/

  /** A DC the auth file keeps intact: it is signed and has its key, and its
      address is shorter than read_dc's 100-byte buffer and holds no NUL. */
  predicate StorableDc(d: DcInfo) {
    d.signed && d.authKey.Some? && |d.ip| < 100 && 0 !in d.ip
  }

  predicate Storable(slot: Option<DcInfo>) {
    slot.Some? ==> StorableDc(slot.value)
  }

  predicate AllStorable(slots: seq<Option<DcInfo>>) {
    forall k | 0 <= k < |slots| :: Storable(slots[k])
  }

  /** An engine state whose auth file reads back: a positive max_dc_num and
      every DC from 0 to it storable. */
  predicate Restorable(st: EngineState) {
    0 < st.maxDcNum && forall k | k in st.dcs && 0 <= k <= st.maxDcNum :: StorableDc(st.dcs[k])
  }

  /** The engine calls read_dc makes for a DC that write_dc wrote. */
  function LoadedDc(id: int32, d: DcInfo): seq<Event>
    requires d.authKey.Some?
  {
    [DcOption(id, 2, "DC", d.ip, d.port), SetAuthKey(id, d.authKey.value), DcSigned(id)]
  }

  /** The engine calls of the slot loop for slots written by write_dc,
      starting at DC number `i`. */
  function LoadedSlots(slots: seq<Option<DcInfo>>, i: nat): seq<Event>
    requires i + |slots| <= 0x8000_0000 && AllStorable(slots)
    decreases |slots|
  {
    if slots == [] then []
    else LoadedSlot(slots[0], i as int32) + LoadedSlots(slots[1..], i + 1)
  }

  function LoadedSlot(slot: Option<DcInfo>, id: int32): seq<Event>
    requires Storable(slot)
  {
    if slot.Some? then LoadedDc(id, slot.value) else []
  }

  lemma {:induction false} SlotReadBack(slot: Option<DcInfo>, id: int32, t: seq<byte>)
    requires Storable(slot)
    ensures SlotEvents(SlotBytes(slot) + t, id) == Progress(LoadedSlot(slot, id), t)
  {
    if slot.None? {
      ReadI32Bytes(0, t);
    } else {
      AppendAssoc(I32Bytes(1), DcBytes(slot.value), t);
      ReadI32Bytes(1, DcBytes(slot.value) + t);
      DcReadBack(slot.value, id, t);
    }
  }

  lemma {:induction false} DcReadBack(d: DcInfo, id: int32, t: seq<byte>)
    requires StorableDc(d)
    ensures DcEvents(DcBytes(d) + t, id) == Progress(LoadedDc(id, d), t)
  {
    var ip := CStr(d.ip);
    assert ip == d.ip;
    var l := |ip|;
    var key: seq<byte> := d.authKey.value;
    var r4 := key + t;
    var r3 := I64Bytes(d.authKeyId) + r4;
    var r2 := ip + r3;
    var r1 := I32Bytes(l) + r2;
    var s := I32Bytes(d.port) + r1;
    AppendAssoc(I64Bytes(d.authKeyId), key, t);
    AppendAssoc(ip, I64Bytes(d.authKeyId) + key, t);
    AppendAssoc(I32Bytes(l), ip + (I64Bytes(d.authKeyId) + key), t);
    AppendAssoc(I32Bytes(d.port), I32Bytes(l) + (ip + (I64Bytes(d.authKeyId) + key)), t);
    assert DcBytes(d) + t == s;
    SplitAppend(I32Bytes(d.port), r1);
    SplitAppend(I32Bytes(l), r2);
    SplitAppend(ip, r3);
    SplitAppend(I64Bytes(d.authKeyId), r4);
    SplitAppend(key, t);
    assert s[4..8] == r1[..4];
    assert s[8..] == r2;
    assert s[8..8 + l] == r2[..l];
    assert s[8 + l..] == r3;
    assert s[16 + l..] == r4;
    assert s[16 + l..272 + l] == r4[..256];
    assert s[272 + l..] == r4[256..];
    I32RoundTrip(d.port);
    I32RoundTrip(l);
  }

  /** Reading what the slot writer wrote, followed by anything, gives back
      every present DC and leaves exactly the following bytes unread. */
  lemma {:induction false} SlotsReadBack(slots: seq<Option<DcInfo>>, i: nat, t: seq<byte>)
    requires i + |slots| <= 0x8000_0000 && AllStorable(slots)
    ensures !SlotsWritten(slots).crashed
    ensures DcsEvents(SlotsWritten(slots).bytes + t, i, |slots|) == Progress(LoadedSlots(slots, i), t)
    decreases |slots|
  {
    if slots == [] {
      assert [] + t == t;
    } else {
      var rest := SlotsWritten(slots[1..]);
      assert Storable(slots[0]);
      SlotsReadBack(slots[1..], i + 1, t);
      AppendAssoc(SlotBytes(slots[0]), rest.bytes, t);
      SlotReadBack(slots[0], i as int32, rest.bytes + t);
    }
  }

  lemma {:induction false} RestorableSlots(st: EngineState)
    requires Restorable(st)
    ensures AllStorable(DcSlots(st))
  {
    var slots := DcSlots(st);
    forall k | 0 <= k < |slots| ensures Storable(slots[k]) {
      if k in st.dcs {
        assert StorableDc(st.dcs[k]);
      }
    }
  }

  lemma {:induction false} MagicRead(st: EngineState, rest: seq<byte>)
    ensures var f := AuthHeader(st) + rest;
      |f| >= 4 && U32Of(f[..4]) == DC_SERIALIZED_MAGIC
      && f[4..] == I32Bytes(st.maxDcNum) + (I32Bytes(st.workingDc) + rest)
  {
    var r1 := I32Bytes(st.workingDc) + rest;
    var f := AuthHeader(st) + rest;
    AppendAssoc(U32Bytes(DC_SERIALIZED_MAGIC) + I32Bytes(st.maxDcNum), I32Bytes(st.workingDc), rest);
    AppendAssoc(U32Bytes(DC_SERIALIZED_MAGIC), I32Bytes(st.maxDcNum), r1);
    assert f[..4] == U32Bytes(DC_SERIALIZED_MAGIC);
    U32RoundTrip(DC_SERIALIZED_MAGIC);
  }

  /** read_auth_file past a header that write_auth_file wrote. */
  lemma {:induction false} AuthHeaderRead(st: EngineState, rest: seq<byte>, cfg: Config, garbage: int32)
    requires ValidConfig(cfg) && 0 < st.maxDcNum
    ensures AuthEventsAsWritten(Some(AuthHeader(st) + rest), cfg, garbage)
         == AfterSlots(DcsEvents(rest, 0, st.maxDcNum as int + 1), st.workingDc, garbage)
  {
    MagicRead(st, rest);
    ReadU32Bytes(st.maxDcNum as uint32, I32Bytes(st.workingDc) + rest);
    ReadI32Bytes(st.workingDc, rest);
  }

  /** The auth file as read_auth_file finds it when the writer got through
      all the slots and `tail` follows them: the user id, stale bytes of an
      older file, or nothing. */
  lemma {:induction false} AuthReadBack(st: EngineState, tail: seq<byte>, cfg: Config, garbage: int32)
    requires ValidConfig(cfg) && Restorable(st)
    ensures AllStorable(DcSlots(st)) && !SlotsWritten(DcSlots(st)).crashed
    ensures AuthEventsAsWritten(Some(AuthHeader(st) + SlotsWritten(DcSlots(st)).bytes + tail), cfg, garbage)
         == if 0 < |tail| < 4 then Abort
            else Done(LoadedSlots(DcSlots(st), 0) + [SetWorkingDc(st.workingDc)]
                      + OurIdEvents(if tail == [] then garbage else I32Of(tail[..4])))
  {
    RestorableSlots(st);
    var slots := DcSlots(st);
    var body := SlotsWritten(slots).bytes;
    SlotsReadBack(slots, 0, tail);
    AppendAssoc(AuthHeader(st), body, tail);
    AuthHeaderRead(st, body + tail, cfg, garbage);
  }

  /** Writing the auth file and reading it back gives every DC from 0 to
      max_dc_num back with its address, port and key, marks each signed,
      and restores the working DC and (when not zero) the user id, whatever
      an older, longer file left behind. */
  lemma {:induction false} AuthFileRoundTrip(prior: seq<byte>, st: EngineState, cfg: Config)
    requires ValidConfig(cfg) && Restorable(st)
    ensures AllStorable(DcSlots(st))
    ensures !AuthFileWrites(st).crashed
    ensures AuthEvents(Some(Overlay(prior, AuthFileWrites(st).bytes)), cfg)
         == Done(LoadedSlots(DcSlots(st), 0) + [SetWorkingDc(st.workingDc)] + OurIdEvents(st.ourId))
  {
    AuthReadBack(st, [], cfg, 0);
    var head := AuthHeader(st) + SlotsWritten(DcSlots(st)).bytes;
    var w := AuthFileWrites(st).bytes;
    assert w == head + I32Bytes(st.ourId);
    var f := Overlay(prior, w);
    var tail := f[|head|..];
    assert f == head + tail;
    assert tail[..4] == I32Bytes(st.ourId);
    I32RoundTrip(st.ourId);
    AuthReadBack(st, tail, cfg, 0);
  }

  /** A DC as the engine holds it after read_dc: address, port and key from
      the file, signed. */
  function Restored(d: DcInfo): DcInfo {
    DcInfo(d.ip, d.port, 0, d.authKey, true)
  }

  /** The DC table entries the slot loop creates from slot `i` on. */
  function RestoredSlots(slots: seq<Option<DcInfo>>, i: int): (m: map<int, DcInfo>)
    ensures forall k | k in m :: i <= k < i + |slots|
    decreases |slots|
  {
    if slots == [] then map[]
    else
      var m := RestoredSlots(slots[1..], i + 1);
      if slots[0].Some? then m[i := Restored(slots[0].value)] else m
  }

  lemma {:induction false} RestoredSlotsAt(slots: seq<Option<DcInfo>>, i: int, j: nat)
    requires j < |slots|
    ensures i + j in RestoredSlots(slots, i) <==> slots[j].Some?
    ensures slots[j].Some? ==> RestoredSlots(slots, i)[i + j] == Restored(slots[j].value)
    decreases j
  {
    if j > 0 {
      RestoredSlotsAt(slots[1..], i + 1, j - 1);
    }
  }

  /** The three engine calls of read_dc, for a DC number not yet in the table. */
  lemma {:induction false} ApplyLoadedDc(st0: EngineState, id: int32, d: DcInfo)
    requires d.authKey.Some? && id !in st0.dcs
    ensures var st1 := ApplyAll(st0, LoadedDc(id, d));
      && st1.dcs == st0.dcs[id := Restored(d)]
      && st1.workingDc == st0.workingDc && st1.ourId == st0.ourId
      && st1.cursor == st0.cursor && st1.chats == st0.chats
  {
    var es := LoadedDc(id, d);
    var e1 := Apply(st0, es[0]);
    var e2 := Apply(e1, es[1]);
    assert ApplyAll(st0, es) == ApplyAll(e1, es[1..]);
    assert ApplyAll(e1, es[1..]) == ApplyAll(e2, es[2..]);
    assert ApplyAll(e2, es[2..]) == ApplyAll(Apply(e2, es[2]), []);
  }

  lemma {:induction false} MapUpdateUnion(a: map<int, DcInfo>, m: map<int, DcInfo>, k: int, v: DcInfo)
    requires k !in m
    ensures a[k := v] + m == a + m[k := v]
  {
  }

  lemma {:induction false} ApplyLoadedSlots(st0: EngineState, slots: seq<Option<DcInfo>>, i: nat)
    requires i + |slots| <= 0x8000_0000 && AllStorable(slots)
    requires forall k | k in st0.dcs :: k < i
    ensures var st1 := ApplyAll(st0, LoadedSlots(slots, i));
      && st1.dcs == st0.dcs + RestoredSlots(slots, i)
      && st1.workingDc == st0.workingDc && st1.ourId == st0.ourId
      && st1.cursor == st0.cursor && st1.chats == st0.chats
    decreases |slots|
  {
    if slots == [] {
      assert st0.dcs + map[] == st0.dcs;
    } else {
      assert Storable(slots[0]);
      var first := LoadedSlot(slots[0], i as int32);
      ApplyAllAppend(st0, first, LoadedSlots(slots[1..], i + 1));
      var st1 := ApplyAll(st0, first);
      var m := RestoredSlots(slots[1..], i + 1);
      if slots[0].Some? {
        ApplyLoadedDc(st0, i as int32, slots[0].value);
        MapUpdateUnion(st0.dcs, m, i, Restored(slots[0].value));
      } else {
        assert first == [];
      }
      ApplyLoadedSlots(st1, slots[1..], i + 1);
    }
  }

  /** The engine calls after the slot loop: the working DC, then our id when
      it is not zero. */
  lemma {:induction false} ApplyAfterSlots(st0: EngineState, working: int32, ourId: int32)
    ensures var st1 := ApplyAll(st0, [SetWorkingDc(working)] + OurIdEvents(ourId));
      && st1.dcs == st0.dcs && st1.workingDc == working
      && st1.ourId == (if ourId != 0 then ourId else st0.ourId)
  {
    var es := [SetWorkingDc(working)] + OurIdEvents(ourId);
    var a := Apply(st0, es[0]);
    assert ApplyAll(st0, es) == ApplyAll(a, es[1..]);
    if ourId != 0 {
      assert ApplyAll(a, es[1..]) == ApplyAll(Apply(a, es[1]), []);
    } else {
      assert es[1..] == [];
    }
  }

  /** The engine state after the calls of a read-back auth file. */
  lemma {:induction false} AuthLoadedState(st: EngineState)
    requires Restorable(st)
    ensures var st' := ApplyAll(Initial, LoadedSlots(DcSlots(st), 0) + [SetWorkingDc(st.workingDc)] + OurIdEvents(st.ourId));
      && (forall k :: k in st'.dcs <==> k in st.dcs && 0 <= k <= st.maxDcNum)
      && (forall k | k in st.dcs && 0 <= k <= st.maxDcNum :: st'.dcs[k] == Restored(st.dcs[k]))
      && st'.workingDc == st.workingDc
      && st'.ourId == st.ourId
  {
    RestorableSlots(st);
    var slots := DcSlots(st);
    var loaded := LoadedSlots(slots, 0);
    var after := [SetWorkingDc(st.workingDc)] + OurIdEvents(st.ourId);
    AppendAssoc(loaded, [SetWorkingDc(st.workingDc)], OurIdEvents(st.ourId));
    ApplyAllAppend(Initial, loaded, after);
    ApplyLoadedSlots(Initial, slots, 0);
    var mid := ApplyAll(Initial, loaded);
    ApplyAfterSlots(mid, st.workingDc, st.ourId);
    var m := RestoredSlots(slots, 0);
    assert mid.dcs == m;
    forall k ensures k in m <==> k in st.dcs && 0 <= k <= st.maxDcNum {
      if 0 <= k < |slots| {
        RestoredSlotsAt(slots, 0, k);
      }
    }
    forall k | k in st.dcs && 0 <= k <= st.maxDcNum ensures m[k] == Restored(st.dcs[k]) {
      RestoredSlotsAt(slots, 0, k);
    }
  }

  /** The engine state after loading a written auth file into a fresh engine:
      exactly the DCs numbered 0 to max_dc_num, each with its address, port
      and key and signed, the same working DC and the same user id. */
  lemma {:induction false} AuthFileRestores(prior: seq<byte>, st: EngineState, cfg: Config)
    requires ValidConfig(cfg) && Restorable(st)
    ensures !AuthFileWrites(st).crashed
    ensures AuthEvents(Some(Overlay(prior, AuthFileWrites(st).bytes)), cfg).Done?
    ensures var st' := ApplyAll(Initial, AuthEvents(Some(Overlay(prior, AuthFileWrites(st).bytes)), cfg).events);
      && (forall k :: k in st'.dcs <==> k in st.dcs && 0 <= k <= st.maxDcNum)
      && (forall k | k in st.dcs && 0 <= k <= st.maxDcNum :: st'.dcs[k] == Restored(st.dcs[k]))
      && st'.workingDc == st.workingDc
      && st'.ourId == st.ourId
  {
    AuthFileRoundTrip(prior, st, cfg);
    AuthLoadedState(st);
    assert AuthEvents(Some(Overlay(prior, AuthFileWrites(st).bytes)), cfg).events
        == LoadedSlots(DcSlots(st), 0) + [SetWorkingDc(st.workingDc)] + OurIdEvents(st.ourId);
  }

  /** A missing or foreign auth file installs the built-in table: DCs 1..3
      (test mode) or 1..5 at the built-in addresses on port 443, none with a
      key or signed, and the default working DC. */
  lemma {:induction false} DefaultsInstalled(cfg: Config)
    requires ValidConfig(cfg)
    ensures var servers := if cfg.testMode then cfg.testServers else cfg.servers;
      var st' := ApplyAll(Initial, DefaultEvents(cfg));
      && (forall k :: k in st'.dcs <==> 1 <= k <= |servers|)
      && (forall k | 1 <= k <= |servers| :: st'.dcs[k] == DcInfo(servers[k - 1], 443, 0, None, false))
      && st'.workingDc == (if cfg.testMode then cfg.testDefaultDc else cfg.defaultDc)
  {
    var servers := if cfg.testMode then cfg.testServers else cfg.servers;
    var opts := ServerOptions(servers);
    ServerOptionsApplied(servers, |servers|);
    assert opts[..|servers|] == opts;
    ApplyAllAppend(Initial, opts, DefaultEvents(cfg)[|opts|..]);
    assert DefaultEvents(cfg) == opts + DefaultEvents(cfg)[|opts|..];
  }

  lemma {:induction false} ServerOptionsApplied(servers: seq<CString>, j: nat)
    requires j <= |servers| <= 5
    ensures var st' := ApplyAll(Initial, ServerOptions(servers)[..j]);
      && (forall k :: k in st'.dcs <==> 1 <= k <= j)
      && (forall k | 1 <= k <= j :: st'.dcs[k] == DcInfo(servers[k - 1], 443, 0, None, false))
    decreases j
  {
    var opts := ServerOptions(servers);
    if j > 0 {
      ServerOptionsApplied(servers, j - 1);
      assert opts[..j] == opts[..j - 1] + [opts[j - 1]];
      ApplyAllAppend(Initial, opts[..j - 1], [opts[j - 1]]);
      var st := ApplyAll(Initial, opts[..j - 1]);
      assert ApplyAll(st, [opts[j - 1]]) == ApplyAll(Apply(st, opts[j - 1]), []);
    } else {
      assert opts[..0] == [];
    }
  }

  /*** Foreign files and fatal checks ***/

  /** Every bl_do_dc_option call of read_dc carries the flag 2. */
  predicate FromFile(es: seq<Event>) {
    forall k | 0 <= k < |es| && es[k].DcOption? :: es[k].flags == 2
  }

  lemma {:induction false} SlotsFromFile(s: seq<byte>, i: nat, n: nat)
    requires i + n <= 0x8000_0000
    ensures DcsEvents(s, i, n).Progress? ==> FromFile(DcsEvents(s, i, n).events)
    decreases n
  {
    if n > 0 {
      var slot := SlotEvents(s, i as int32);
      if slot.Progress? {
        SlotsFromFile(slot.rest, i + 1, n - 1);
      }
    }
  }

  /** read_auth_file installs the built-in servers exactly when the file
      is missing, shorter than the magic, or carries another magic: a file
      with the magic either aborts or yields only what it holds. */
  lemma {:induction false} DefaultsIffForeign(file: Option<seq<byte>>, cfg: Config, garbage: int32)
    requires ValidConfig(cfg)
    ensures AuthEventsAsWritten(file, cfg, garbage) == Done(DefaultEvents(cfg))
        <==> file.None? || |file.value| < 4 || U32Of(file.value[..4]) != DC_SERIALIZED_MAGIC
  {
    if !(file.None? || |file.value| < 4 || U32Of(file.value[..4]) != DC_SERIALIZED_MAGIC) {
      var s := file.value[4..];
      match ReadU32(s)
      case Short =>
      case Got(x, r1) =>
        if x != 0 {
          match ReadI32(r1)
          case Short =>
          case Got(working, r2) =>
            SlotsFromFile(r2, 0, SlotCount(x));
            var d := DefaultEvents(cfg);
            assert d[0].DcOption? && d[0].flags == 0;
        }
    }
  }

  /** After the magic, a max_dc_num of 0 is fatal. */
  lemma {:induction false} ZeroDcCountAborts(rest: seq<byte>, cfg: Config, garbage: int32)
    requires ValidConfig(cfg)
    ensures AuthEventsAsWritten(Some(U32Bytes(DC_SERIALIZED_MAGIC) + (U32Bytes(0) + rest)), cfg, garbage) == Abort
  {
    var f := U32Bytes(DC_SERIALIZED_MAGIC) + (U32Bytes(0) + rest);
    SplitAppend(U32Bytes(DC_SERIALIZED_MAGIC), U32Bytes(0) + rest);
    U32RoundTrip(DC_SERIALIZED_MAGIC);
    ReadU32Bytes(0, rest);
  }

  /** So is a present slot whose address length is not in [0, 100). */
  lemma {:induction false} BadIpLengthAborts(port: int32, l: int32, rest: seq<byte>, id: int32)
    requires !(0 <= l < 100)
    ensures SlotEvents(I32Bytes(1) + (I32Bytes(port) + (I32Bytes(l) + rest)), id) == Aborted
  {
    var r := I32Bytes(port) + (I32Bytes(l) + rest);
    ReadI32Bytes(1, r);
    SplitAppend(I32Bytes(port), I32Bytes(l) + rest);
    SplitAppend(I32Bytes(l), rest);
    assert r[4..8] == I32Bytes(l);
    I32RoundTrip(l);
  }

  /*** Truncated files ***/

  lemma {:induction false} DcTruncated(d: DcInfo, id: int32, p: seq<byte>)
    requires StorableDc(d) && |p| < |DcBytes(d)| && p == DcBytes(d)[..|p|]
    ensures DcEvents(p, id) == Aborted
  {
    if |p| >= 8 {
      var b := DcBytes(d);
      assert CStr(d.ip) == d.ip;
      assert p[4..8] == b[4..8] == I32Bytes(|d.ip|);
      I32RoundTrip(|d.ip|);
    }
  }

  lemma {:induction false} SlotTruncated(slot: Option<DcInfo>, id: int32, p: seq<byte>)
    requires Storable(slot) && |p| < |SlotBytes(slot)| && p == SlotBytes(slot)[..|p|]
    ensures SlotEvents(p, id) == Aborted
  {
    if |p| >= 4 {
      var d := slot.value;
      PrefixOfAppend(I32Bytes(1), DcBytes(d), p);
      ReadI32Bytes(1, p[4..]);
      DcTruncated(d, id, p[4..]);
    }
  }

  /** A slot area cut short anywhere aborts the reader. */
  lemma {:induction false} SlotsTruncated(slots: seq<Option<DcInfo>>, i: nat, p: seq<byte>)
    requires i + |slots| <= 0x8000_0000 && AllStorable(slots)
    requires !SlotsWritten(slots).crashed
    requires |p| < |SlotsWritten(slots).bytes| && p == SlotsWritten(slots).bytes[..|p|]
    ensures DcsEvents(p, i, |slots|) == Aborted
    decreases |slots|
  {
    var x := slots[0];
    assert Storable(x);
    var b := SlotBytes(x);
    var rest := SlotsWritten(slots[1..]).bytes;
    assert SlotsWritten(slots).bytes == b + rest;
    PrefixOfAppend(b, rest, p);
    if |p| < |b| {
      SlotTruncated(x, i as int32, p);
      DcsAbortsAt(p, i, |slots|);
    } else {
      var p' := p[|b|..];
      SlotReadBack(x, i as int32, p');
      SlotsTruncated(slots[1..], i + 1, p');
      DcsAbortsAt(p, i, |slots|);
    }
  }

  /** The slot loop aborts when its first pass does, or when the passes
      after a successful first one do. */
  lemma {:induction false} DcsAbortsAt(s: seq<byte>, i: nat, n: nat)
    requires 0 < n && i + n <= 0x8000_0000
    requires SlotEvents(s, i as int32).Aborted?
          || DcsEvents(SlotEvents(s, i as int32).rest, i + 1, n - 1).Aborted?
    ensures DcsEvents(s, i, n) == Aborted
  {
  }

  /** Cutting the auth file short anywhere after its magic makes the reader
      abort, except at the two points where the user id may be missing: right
      after the slots and at the very end. */
  lemma {:induction false} TruncatedAuthFile(st: EngineState, cfg: Config, n: nat)
    requires ValidConfig(cfg) && Restorable(st)
    requires !AuthFileWrites(st).crashed
    requires 4 <= n <= |AuthFileWrites(st).bytes|
    ensures var w := AuthFileWrites(st).bytes;
      AuthEvents(Some(w[..n]), cfg).Done? <==> n == |w| - 4 || n == |w|
  {
    RestorableSlots(st);
    var w := AuthFileWrites(st).bytes;
    var body := SlotsWritten(DcSlots(st)).bytes;
    var head := AuthHeader(st);
    AppendAssoc(head, body, I32Bytes(st.ourId));
    var f := w[..n];
    PrefixOfAppend(head, body + I32Bytes(st.ourId), f);
    if n < 12 {
      HeaderTruncated(st, cfg, f);
    } else {
      var p := f[12..];
      PrefixOfAppend(body, I32Bytes(st.ourId), p);
      if |p| < |body| {
        AuthHeaderRead(st, p, cfg, 0);
        SlotsTruncated(DcSlots(st), 0, p);
      } else {
        var tail := p[|body|..];
        AppendAssoc(head, body, tail);
        AuthReadBack(st, tail, cfg, 0);
      }
    }
  }

  /** A file holding the magic but cut inside max_dc_num or the working DC. */
  lemma {:induction false} HeaderTruncated(st: EngineState, cfg: Config, f: seq<byte>)
    requires ValidConfig(cfg) && 0 < st.maxDcNum
    requires 4 <= |f| < 12 && f == AuthHeader(st)[..|f|]
    ensures AuthEvents(Some(f), cfg) == Abort
  {
    var head := AuthHeader(st);
    MagicRead(st, []);
    assert head + [] == head;
    assert f[..4] == head[..4];
    var r := I32Bytes(st.maxDcNum) + I32Bytes(st.workingDc);
    assert f[4..] == r[..|f| - 4];
    if |f| >= 8 {
      PrefixOfAppend(I32Bytes(st.maxDcNum), I32Bytes(st.workingDc), f[4..]);
      ReadU32Bytes(st.maxDcNum as uint32, f[8..]);
    }
  }

  /*** The uninitialised user id ***/

  /** A 20-byte file holding the magic, max_dc_num 1, working DC 2 and two
      empty slots, as write_auth_file leaves it when cut off before the user
      id: as written, the reader sets the user id to whatever the
      uninitialised `our_id` held. */
  lemma {:induction false} OurIdFromUninitialised(cfg: Config, garbage: int32)
    requires ValidConfig(cfg) && garbage != 0
    ensures var f := U32Bytes(DC_SERIALIZED_MAGIC) + I32Bytes(1) + I32Bytes(2) + I32Bytes(0) + I32Bytes(0);
      && |f| == 20
      && AuthEventsAsWritten(Some(f), cfg, garbage) == Done([SetWorkingDc(2), SetOurId(garbage)])
      && AuthEvents(Some(f), cfg) == Done([SetWorkingDc(2)])
  {
    var st := Initial.(maxDcNum := 1, workingDc := 2);
    var rest := I32Bytes(0) + I32Bytes(0);
    var f := U32Bytes(DC_SERIALIZED_MAGIC) + I32Bytes(1) + I32Bytes(2) + I32Bytes(0) + I32Bytes(0);
    AppendAssoc(AuthHeader(st), I32Bytes(0), I32Bytes(0));
    assert f == AuthHeader(st) + rest;
    AuthHeaderRead(st, rest, cfg, garbage);
    AuthHeaderRead(st, rest, cfg, 0);
    ReadI32Bytes(0, I32Bytes(0));
    assert I32Bytes(0) == I32Bytes(0) + [];
    ReadI32Bytes(0, []);
    assert DcsEvents(I32Bytes(0), 1, 1) == Progress([], []);
    assert DcsEvents(rest, 0, 2) == Progress([], []);
  }

  /** With `our_id` starting at 0, a file that ends right after the slots
      loads every DC and the working DC and leaves the user id unset. */
  lemma {:induction false} MissingOurIdSetsNone(st: EngineState, cfg: Config)
    requires ValidConfig(cfg) && Restorable(st)
    ensures !SlotsWritten(DcSlots(st)).crashed && AllStorable(DcSlots(st))
    ensures AuthEvents(Some(AuthHeader(st) + SlotsWritten(DcSlots(st)).bytes), cfg)
         == Done(LoadedSlots(DcSlots(st), 0) + [SetWorkingDc(st.workingDc)])
    ensures ApplyAll(Initial, LoadedSlots(DcSlots(st), 0) + [SetWorkingDc(st.workingDc)]).ourId == 0
  {
    AuthReadBack(st, [], cfg, 0);
    var loaded := LoadedSlots(DcSlots(st), 0);
    assert AuthHeader(st) + SlotsWritten(DcSlots(st)).bytes + [] == AuthHeader(st) + SlotsWritten(DcSlots(st)).bytes;
    assert loaded + [SetWorkingDc(st.workingDc)] + [] == loaded + [SetWorkingDc(st.workingDc)];
    ApplyLoadedSlots(Initial, DcSlots(st), 0);
    ApplyAllAppend(Initial, loaded, [SetWorkingDc(st.workingDc)]);
    var mid := ApplyAll(Initial, loaded);
    assert ApplyAll(mid, [SetWorkingDc(st.workingDc)]) == ApplyAll(Apply(mid, SetWorkingDc(st.workingDc)), []);
  }
}
