/** The secret-chat store (`<base>/secret`): magic, version, a record count,
    then one record per encrypted chat in state sc_ok. Version 2 is written;
    versions 0 and 1 (without the key digest, and version 0 also without the
    sequence numbers) are still read. */
module SecretFile {
  import opened Bytes
  import opened Engine

  const SECRET_CHAT_FILE_MAGIC: uint32 := 0x37a1988a

  /*** Writing ***/

  /** A peer write_secret_chat writes: an encrypted chat in state sc_ok. */
  predicate Saved(p: Peer) {
    p.EncrChatPeer? && p.secret.state == SC_OK
  }

  /** The chats write_secret_chat writes, in the order tgl_peer_iterator_ex
      hands out the peers. */
  function OkChats(peers: seq<Peer>): (chats: seq<SecretChat>)
    ensures |chats| <= |peers|
    decreases |peers|
  {
    if peers == [] then []
    else (if Saved(peers[0]) then [peers[0].secret] else []) + OkChats(peers[1..])
  }

  /** Chat id, print-name length and the print name up to its first NUL. */
  function HeadBytes(c: SecretChat): seq<byte> {
    var name := CStr(c.printName);
    I32Bytes(c.id) + (I32Bytes(|name|) + name)
  }

  function IdsBytes(c: SecretChat): seq<byte> {
    I32Bytes(c.userId) + (I32Bytes(c.adminId) + (I32Bytes(c.date) + (I32Bytes(c.ttl) + I32Bytes(c.layer))))
  }

  function KeyedBytes(c: SecretChat): seq<byte> {
    I64Bytes(c.accessHash) + (I32Bytes(c.state) + (I64Bytes(c.keyFingerprint) + c.key))
  }

  function TailBytes(c: SecretChat): seq<byte> {
    c.firstKeySha + (I32Bytes(c.inSeqNo) + (I32Bytes(c.lastInSeqNo) + I32Bytes(c.outSeqNo)))
  }

  /** The record write_secret_chat writes for one chat: 336 bytes plus the
      print name. */
  function RecordBytes(c: SecretChat): (b: seq<byte>)
    ensures |b| == 336 + |CStr(c.printName)|
  {
    HeadBytes(c) + (IdsBytes(c) + (KeyedBytes(c) + TailBytes(c)))
  }

  function ChatsBytes(chats: seq<SecretChat>): seq<byte>
    decreases |chats|
  {
    if chats == [] then [] else RecordBytes(chats[0]) + ChatsBytes(chats[1..])
  }

  function SecretHeader(count: int32): seq<byte> {
    U32Bytes(SECRET_CHAT_FILE_MAGIC) + I32Bytes(2) + I32Bytes(count)
  }

  /** Everything in the secret file once write_secret_chat_file has patched
      the count: the header with the number of records, then the records. */
  function SecretFileBytes(peers: seq<Peer>): seq<byte>
    requires |peers| < 0x8000_0000
  {
    var chats := OkChats(peers);
    SecretHeader(|chats|) + ChatsBytes(chats)
  }

  /** A chat is written exactly when the peer list holds it as an encrypted
      chat in state sc_ok. */
  lemma {:induction false} OkChatsIff(peers: seq<Peer>, c: SecretChat)
    ensures c in OkChats(peers) <==> EncrChatPeer(c) in peers && c.state == SC_OK
    decreases |peers|
  {
    if peers != [] {
      OkChatsIff(peers[1..], c);
      assert peers == [peers[0]] + peers[1..];
    }
  }

  method WriteHead(w: seq<byte>, c: SecretChat) returns (w': seq<byte>)
    ensures w' == w + HeadBytes(c)
  {
    var name := CStr(c.printName);
    w' := w + I32Bytes(c.id);
    w' := w' + I32Bytes(|name|);
    w' := w' + name;
  }

  method WriteIds(w: seq<byte>, c: SecretChat) returns (w': seq<byte>)
    ensures w' == w + IdsBytes(c)
  {
    w' := w + I32Bytes(c.userId);
    w' := w' + I32Bytes(c.adminId);
    w' := w' + I32Bytes(c.date);
    w' := w' + I32Bytes(c.ttl);
    w' := w' + I32Bytes(c.layer);
  }

  method WriteKeyed(w: seq<byte>, c: SecretChat) returns (w': seq<byte>)
    ensures w' == w + KeyedBytes(c)
  {
    w' := w + I64Bytes(c.accessHash);
    w' := w' + I32Bytes(c.state);
    w' := w' + I64Bytes(c.keyFingerprint);
    w' := w' + c.key;
  }

  method WriteTail(w: seq<byte>, c: SecretChat) returns (w': seq<byte>)
    ensures w' == w + TailBytes(c)
  {
    w' := w + c.firstKeySha;
    w' := w' + I32Bytes(c.inSeqNo);
    w' := w' + I32Bytes(c.lastInSeqNo);
    w' := w' + I32Bytes(c.outSeqNo);
  }

  /** write_secret_chat for one peer: nothing for a peer that is not a
      saved chat, otherwise its record, counted. */
  method WriteSecretChat(w: seq<byte>, count: nat, p: Peer) returns (w': seq<byte>, count': nat)
    ensures w' == w + (if Saved(p) then RecordBytes(p.secret) else [])
    ensures count' == count + (if Saved(p) then 1 else 0)
  {
    if !p.EncrChatPeer? || p.secret.state != SC_OK {
      return w, count;
    }
    var c := p.secret;
    count' := count + 1;
    w' := WriteHead(w, c);
    w' := WriteIds(w', c);
    w' := WriteKeyed(w', c);
    w' := WriteTail(w', c);
    AppendAssoc(w + HeadBytes(c) + IdsBytes(c), KeyedBytes(c), TailBytes(c));
    AppendAssoc(w + HeadBytes(c), IdsBytes(c), KeyedBytes(c) + TailBytes(c));
    AppendAssoc(w, HeadBytes(c), IdsBytes(c) + (KeyedBytes(c) + TailBytes(c)));
  }

  /** What the peer at index i adds to the written records. */
  lemma {:induction false} OkChatsStep(peers: seq<Peer>, i: nat)
    requires i < |peers|
    ensures var p, later := peers[i], OkChats(peers[i + 1..]);
      && ChatsBytes(OkChats(peers[i..])) == (if Saved(p) then RecordBytes(p.secret) else []) + ChatsBytes(later)
      && |OkChats(peers[i..])| == (if Saved(p) then 1 else 0) + |later|
  {
    var p := peers[i];
    assert peers[i..][0] == p && peers[i..][1..] == peers[i + 1..];
    var first := if Saved(p) then [p.secret] else [];
    var later := OkChats(peers[i + 1..]);
    assert OkChats(peers[i..]) == first + later;
    if Saved(p) {
      assert (first + later)[0] == p.secret && (first + later)[1..] == later;
    } else {
      assert first + later == later;
    }
  }

  /** tgl_peer_iterator_ex calling write_secret_chat on every peer, with the
      shared counter of records written. */
  method WriteSecretChats(peers: seq<Peer>) returns (w: seq<byte>, count: nat)
    ensures w == ChatsBytes(OkChats(peers))
    ensures count == |OkChats(peers)|
  {
    w, count := [], 0;
    var i := 0;
    while i < |peers|
      invariant 0 <= i <= |peers|
      invariant ChatsBytes(OkChats(peers)) == w + ChatsBytes(OkChats(peers[i..]))
      invariant |OkChats(peers)| == count + |OkChats(peers[i..])|
    {
      var p := peers[i];
      OkChatsStep(peers, i);
      AppendAssoc(w, if Saved(p) then RecordBytes(p.secret) else [], ChatsBytes(OkChats(peers[i + 1..])));
      w, count := WriteSecretChat(w, count, p);
      i := i + 1;
    }
    assert peers[i..] == [];
    assert w + [] == w;
  }

  /** write_secret_chat_file: magic, version 2 and the placeholder count (the
      version variable, 2), the records, then a seek back to offset 8 to
      write the real count. The file is opened without O_TRUNC, so bytes of
      an older, longer file survive past the end. */
  method WriteSecretChatFile(prior: seq<byte>, peers: seq<Peer>) returns (file: seq<byte>)
    requires |peers| < 0x8000_0000
    ensures file == Overlay(prior, SecretFileBytes(peers))
  {
    var w := U32Bytes(SECRET_CHAT_FILE_MAGIC);
    var x: int32 := 2;
    w := w + I32Bytes(x);
    w := w + I32Bytes(x);
    var body, count := WriteSecretChats(peers);
    w := w + body;
    file := Overlay(prior, w);
    file := WriteAt(file, 8, I32Bytes(count));
    PatchOverlay(prior, w, 8, I32Bytes(count));
    PatchCount(body, count);
  }

  /** Overwriting the placeholder count at offset 8. */
  lemma {:induction false} PatchCount(body: seq<byte>, n: int32)
    ensures var w := SecretHeader(2) + body;
      |w| >= 12 && w[..8] + I32Bytes(n) + w[12..] == SecretHeader(n) + body
  {
    var w := SecretHeader(2) + body;
    var m := U32Bytes(SECRET_CHAT_FILE_MAGIC) + I32Bytes(2);
    assert w[..8] == m;
    assert w[12..] == body;
  }

  /*** Reading ***/

  /** Chat id and print name. */
  datatype Head = Head(id: int32, name: CString)
  datatype Ids = Ids(userId: int32, adminId: int32, date: int32, ttl: int32, layer: int32)
  datatype Keyed = Keyed(accessHash: int64, state: int32, fingerprint: int64, key: AuthKey)
  /** The digest (read only in version 2) and the sequence numbers (read
      only from version 1 on; 0 otherwise). */
  datatype Tail = Tail(sha: Digest, inSeqNo: int32, lastInSeqNo: int32, outSeqNo: int32)
  /** Everything read_secret_chat reads for one chat. */
  datatype Record = Record(head: Head, ids: Ids, keyed: Keyed, tail: Tail)

  /** In read_secret_chat every failed read and every failed check is an
      `assert` that ends the process: `Short` stands for all of them. The
      print-name length must lie strictly between 0 and 1000. */
  function HeadOf(s: seq<byte>): Read<Head> {
    match ReadI32(s)
    case Short => Short
    case Got(id, r1) =>
      match ReadI32(r1)
      case Short => Short
      case Got(l, r2) =>
        if !(0 < l < 1000) then Short
        else match ReadBytes(r2, l)
          case Short => Short
          case Got(name, r3) => Got(Head(id, name), r3)
  }

  function IdsOf(s: seq<byte>): Read<Ids> {
    match ReadI32(s)
    case Short => Short
    case Got(userId, r1) =>
      match ReadI32(r1)
      case Short => Short
      case Got(adminId, r2) =>
        match ReadI32(r2)
        case Short => Short
        case Got(date, r3) =>
          match ReadI32(r3)
          case Short => Short
          case Got(ttl, r4) =>
            match ReadI32(r4)
            case Short => Short
            case Got(layer, r5) => Got(Ids(userId, adminId, date, ttl, layer), r5)
  }

  function KeyedOf(s: seq<byte>): Read<Keyed> {
    match ReadI64(s)
    case Short => Short
    case Got(accessHash, r1) =>
      match ReadI32(r1)
      case Short => Short
      case Got(state, r2) =>
        match ReadI64(r2)
        case Short => Short
        case Got(fingerprint, r3) =>
          match ReadBytes(r3, 256)
          case Short => Short
          case Got(key, r4) => Got(Keyed(accessHash, state, fingerprint, key), r4)
  }

  function SeqNosOf(s: seq<byte>, sha: Digest, v: int): Read<Tail> {
    if v < 1 then Got(Tail(sha, 0, 0, 0), s)
    else match ReadI32(s)
      case Short => Short
      case Got(inSeqNo, r1) =>
        match ReadI32(r1)
        case Short => Short
        case Got(lastInSeqNo, r2) =>
          match ReadI32(r2)
          case Short => Short
          case Got(outSeqNo, r3) => Got(Tail(sha, inSeqNo, lastInSeqNo, outSeqNo), r3)
  }

  /** The version-dependent end of a record: the stored digest from version
      2 on (otherwise the static buffer is left as it was, here zeros), then
      the sequence numbers from version 1 on. */
  function TailOf(s: seq<byte>, v: int): Read<Tail> {
    if v < 2 then SeqNosOf(s, ZeroDigest(), v)
    else match ReadBytes(s, 20)
      case Short => Short
      case Got(sha, r) => SeqNosOf(r, sha, v)
  }

  function RecordOf(s: seq<byte>, v: int): Read<Record> {
    match HeadOf(s)
    case Short => Short
    case Got(head, r1) =>
      match IdsOf(r1)
      case Short => Short
      case Got(ids, r2) =>
        match KeyedOf(r2)
        case Short => Short
        case Got(keyed, r3) =>
          match TailOf(r3, v)
          case Short => Short
          case Got(tail, r4) => Got(Record(head, ids, keyed, tail), r4)
  }

  /** The engine calls read_secret_chat makes for a record of version `v`:
      create, date, ttl, layer, state, key and fingerprint, digest (the
      stored one from version 2 on, SHA-1 of the key before), sequence
      numbers (from version 1 on) and access hash. */
  function RecordEvents(rec: Record, v: int, sha1: AuthKey -> Digest): seq<Event> {
    CreateEvents(rec) + KeyEvents(rec, v, sha1) + SeqEvents(rec, v)
    + [EncrChatSetAccessHash(rec.head.id, rec.keyed.accessHash)]
  }

  function CreateEvents(rec: Record): seq<Event> {
    var id := rec.head.id;
    [EncrChatCreate(id, rec.ids.userId, rec.ids.adminId, rec.head.name),
     EncrChatSetDate(id, rec.ids.date),
     EncrChatSetTtl(id, rec.ids.ttl),
     EncrChatSetLayer(id, rec.ids.layer)]
  }

  function KeyEvents(rec: Record, v: int, sha1: AuthKey -> Digest): seq<Event> {
    var id := rec.head.id;
    [EncrChatSetState(id, rec.keyed.state),
     EncrChatSetKey(id, rec.keyed.key, rec.keyed.fingerprint),
     EncrChatSetSha(id, if v >= 2 then rec.tail.sha else sha1(rec.keyed.key))]
  }

  function SeqEvents(rec: Record, v: int): seq<Event> {
    if v >= 1 then [EncrChatSetSeq(rec.head.id, rec.tail.inSeqNo, rec.tail.lastInSeqNo, rec.tail.outSeqNo)] else []
  }

  function RecordStep(s: seq<byte>, v: int, sha1: AuthKey -> Digest): Partial {
    match RecordOf(s, v)
    case Short => Aborted
    case Got(rec, r) => Progress(RecordEvents(rec, v, sha1), r)
  }

  /** One turn of the loop of read_secret_chat_file. */
  function RecordReader(v: int, sha1: AuthKey -> Digest): seq<byte> -> Partial {
    s => RecordStep(s, v, sha1)
  }

  /** The loop `while (x-- > 0)` of read_secret_chat_file after `n` turns. */
  function RecordsEvents(s: seq<byte>, v: int, n: nat, sha1: AuthKey -> Digest): Partial {
    Turns(RecordReader(v, sha1), s, n)
  }

  /** read_secret_chat_file on what the file holds (None: it could not be
      opened). A missing file, a magic read of fewer than 4 bytes or another
      magic loads nothing; after the magic, a version other than 0, 1 or 2,
      a negative count or a short read aborts. Bytes after the last record
      are not read. */
  function SecretEvents(file: Option<seq<byte>>, sha1: AuthKey -> Digest): Outcome {
    if file.None? || |file.value| < 4 || U32Of(file.value[..4]) != SECRET_CHAT_FILE_MAGIC then Done([])
    else match ReadI32(file.value[4..])
      case Short => Abort
      case Got(v, r1) =>
        if !(0 <= v <= 2) then Abort
        else match ReadI32(r1)
          case Short => Abort
          case Got(x, r2) =>
            if x < 0 then Abort
            else match RecordsEvents(r2, v, x, sha1)
              case Aborted => Abort
              case Progress(es, _) => Done(es)
  }

  method ReadHead(s: seq<byte>) returns (r: Read<Head>)
    ensures r == HeadOf(s)
  {
    var id := ReadI32(s);
    if id.Short? {
      return Short;
    }
    var l := ReadI32(id.rest);
    if l.Short? || !(0 < l.value < 1000) {
      return Short;
    }
    var name := ReadBytes(l.rest, l.value);
    if name.Short? {
      return Short;
    }
    r := Got(Head(id.value, name.value), name.rest);
  }

  method ReadIds(s: seq<byte>) returns (r: Read<Ids>)
    ensures r == IdsOf(s)
  {
    var userId := ReadI32(s);
    if userId.Short? {
      return Short;
    }
    var adminId := ReadI32(userId.rest);
    if adminId.Short? {
      return Short;
    }
    var date := ReadI32(adminId.rest);
    if date.Short? {
      return Short;
    }
    var ttl := ReadI32(date.rest);
    if ttl.Short? {
      return Short;
    }
    var layer := ReadI32(ttl.rest);
    if layer.Short? {
      return Short;
    }
    r := Got(Ids(userId.value, adminId.value, date.value, ttl.value, layer.value), layer.rest);
  }

  method ReadKeyed(s: seq<byte>) returns (r: Read<Keyed>)
    ensures r == KeyedOf(s)
  {
    var accessHash := ReadI64(s);
    if accessHash.Short? {
      return Short;
    }
    var state := ReadI32(accessHash.rest);
    if state.Short? {
      return Short;
    }
    var fingerprint := ReadI64(state.rest);
    if fingerprint.Short? {
      return Short;
    }
    var key := ReadBytes(fingerprint.rest, 256);
    if key.Short? {
      return Short;
    }
    r := Got(Keyed(accessHash.value, state.value, fingerprint.value, key.value), key.rest);
  }

  method ReadTail(s: seq<byte>, v: int) returns (r: Read<Tail>)
    ensures r == TailOf(s, v)
  {
    var sha: Digest := ZeroDigest();
    var rest := s;
    if v >= 2 {
      var d := ReadBytes(s, 20);
      if d.Short? {
        return Short;
      }
      sha, rest := d.value, d.rest;
    }
    var inSeqNo, lastInSeqNo, outSeqNo: int32 := 0, 0, 0;
    if v >= 1 {
      var a := ReadI32(rest);
      if a.Short? {
        return Short;
      }
      var b := ReadI32(a.rest);
      if b.Short? {
        return Short;
      }
      var c := ReadI32(b.rest);
      if c.Short? {
        return Short;
      }
      inSeqNo, lastInSeqNo, outSeqNo, rest := a.value, b.value, c.value, c.rest;
    }
    r := Got(Tail(sha, inSeqNo, lastInSeqNo, outSeqNo), rest);
  }

  /** read_secret_chat: reads one record and makes its engine calls. */
  method ReadSecretChat(s: seq<byte>, v: int, sha1: AuthKey -> Digest) returns (r: Partial)
    ensures r == RecordStep(s, v, sha1)
  {
    var head := ReadHead(s);
    if head.Short? {
      return Aborted;
    }
    var ids := ReadIds(head.rest);
    if ids.Short? {
      return Aborted;
    }
    var keyed := ReadKeyed(ids.rest);
    if keyed.Short? {
      return Aborted;
    }
    var tail := ReadTail(keyed.rest, v);
    if tail.Short? {
      return Aborted;
    }
    r := Progress(RecordEvents(Record(head.value, ids.value, keyed.value, tail.value), v, sha1), tail.rest);
  }

  /** The loop `while (x-- > 0) read_secret_chat (...)`, with the turns
      counted up. */
  method ReadSecretChats(s: seq<byte>, v: int, count: nat, sha1: AuthKey -> Digest) returns (r: Partial)
    ensures r == RecordsEvents(s, v, count, sha1)
  {
    var i := 0;
    var es: seq<Event> := [];
    var rest := s;
    while i < count
      invariant i <= count
      invariant RecordsEvents(s, v, i, sha1) == Progress(es, rest)
    {
      var step := ReadSecretChat(rest, v, sha1);
      ReaderIsStep(v, sha1, rest);
      TurnsNext(RecordReader(v, sha1), s, i, es, rest, step);
      if step.Aborted? {
        TurnsStayAborted(RecordReader(v, sha1), s, i + 1, count);
        return Aborted;
      }
      es := es + step.events;
      rest := step.rest;
      i := i + 1;
    }
    assert i == count;
    r := Progress(es, rest);
  }

  /** read_secret_chat_file. */
  method ReadSecretChatFile(file: Option<seq<byte>>, sha1: AuthKey -> Digest) returns (r: Outcome)
    ensures r == SecretEvents(file, sha1)
  {
    if file.None? || |file.value| < 4 || U32Of(file.value[..4]) != SECRET_CHAT_FILE_MAGIC {
      return Done([]);
    }
    var v := ReadI32(file.value[4..]);
    if v.Short? || !(v.value == 0 || v.value == 1 || v.value == 2) {
      return Abort;
    }
    var x := ReadI32(v.rest);
    if x.Short? || x.value < 0 {
      return Abort;
    }
    var records := ReadSecretChats(x.rest, v.value, x.value, sha1);
    if records.Aborted? {
      return Abort;
    }
    r := Done(records.events);
  }

  /*** Properties ***/

  /** The chat as the engine holds it after read_secret_chat: the fields
      from the record; the digest is the stored one from version 2 on and
      SHA-1 of the key before; the sequence numbers stay 0 in version 0. */
  function LoadedChat(rec: Record, v: int, sha1: AuthKey -> Digest): SecretChat {
    SecretChat(rec.head.id, rec.head.name, rec.ids.userId, rec.ids.adminId,
               rec.ids.date, rec.ids.ttl, rec.ids.layer, rec.keyed.accessHash, rec.keyed.state,
               rec.keyed.fingerprint, rec.keyed.key,
               if v >= 2 then rec.tail.sha else sha1(rec.keyed.key),
               if v >= 1 then rec.tail.inSeqNo else 0,
               if v >= 1 then rec.tail.lastInSeqNo else 0,
               if v >= 1 then rec.tail.outSeqNo else 0)
  }

  lemma {:induction false} ApplyCreateEvents(st: EngineState, rec: Record)
    ensures ApplyAll(st, CreateEvents(rec))
         == st.(chats := st.chats[rec.head.id := CreatedChat(rec.head.id, rec.ids.userId, rec.ids.adminId, rec.head.name)
                                   .(date := rec.ids.date, ttl := rec.ids.ttl, layer := rec.ids.layer)])
  {
    var id := rec.head.id;
    var e0 := EncrChatCreate(id, rec.ids.userId, rec.ids.adminId, rec.head.name);
    var e1 := EncrChatSetDate(id, rec.ids.date);
    var e2 := EncrChatSetTtl(id, rec.ids.ttl);
    var e3 := EncrChatSetLayer(id, rec.ids.layer);
    assert CreateEvents(rec) == [e0, e1, e2, e3];
    ApplyFour(st, e0, e1, e2, e3);
    var c0 := CreatedChat(id, rec.ids.userId, rec.ids.adminId, rec.head.name);
    var c1 := c0.(date := rec.ids.date);
    var c2 := c1.(ttl := rec.ids.ttl);
    assert Apply(st, e0) == st.(chats := st.chats[id := c0]);
    ApplyChatFieldTwice(st, c0, e1);
    assert Apply(Apply(st, e0), e1) == st.(chats := st.chats[id := c1]);
    ApplyChatFieldTwice(st, c1, e2);
    assert Apply(Apply(Apply(st, e0), e1), e2) == st.(chats := st.chats[id := c2]);
    ApplyChatFieldTwice(st, c2, e3);
  }

  lemma {:induction false} ApplyKeyEvents(st: EngineState, rec: Record, v: int, sha1: AuthKey -> Digest)
    requires rec.head.id in st.chats
    ensures ApplyAll(st, KeyEvents(rec, v, sha1))
         == st.(chats := st.chats[rec.head.id := st.chats[rec.head.id].(
                  state := rec.keyed.state, key := rec.keyed.key, keyFingerprint := rec.keyed.fingerprint,
                  firstKeySha := if v >= 2 then rec.tail.sha else sha1(rec.keyed.key))])
  {
    var id := rec.head.id;
    var c := st.chats[id];
    var e0 := EncrChatSetState(id, rec.keyed.state);
    var e1 := EncrChatSetKey(id, rec.keyed.key, rec.keyed.fingerprint);
    var e2 := EncrChatSetSha(id, if v >= 2 then rec.tail.sha else sha1(rec.keyed.key));
    assert KeyEvents(rec, v, sha1) == [e0, e1, e2];
    ApplyThree(st, e0, e1, e2);
    var c1 := c.(state := rec.keyed.state);
    var c2 := c1.(key := rec.keyed.key, keyFingerprint := rec.keyed.fingerprint);
    ApplyChatField(st, e0);
    assert Apply(st, e0) == st.(chats := st.chats[id := c1]);
    ApplyChatFieldTwice(st, c1, e1);
    assert Apply(Apply(st, e0), e1) == st.(chats := st.chats[id := c2]);
    ApplyChatFieldTwice(st, c2, e2);
  }

  lemma {:induction false} ApplySeqEvents(st: EngineState, rec: Record)
    requires rec.head.id in st.chats
    ensures var c := st.chats[rec.head.id];
      ApplyAll(st, [EncrChatSetSeq(rec.head.id, rec.tail.inSeqNo, rec.tail.lastInSeqNo, rec.tail.outSeqNo),
                    EncrChatSetAccessHash(rec.head.id, rec.keyed.accessHash)])
      == st.(chats := st.chats[rec.head.id := c.(inSeqNo := rec.tail.inSeqNo, lastInSeqNo := rec.tail.lastInSeqNo,
                                                 outSeqNo := rec.tail.outSeqNo, accessHash := rec.keyed.accessHash)])
  {
    var id := rec.head.id;
    var c := st.chats[id];
    var e := EncrChatSetSeq(id, rec.tail.inSeqNo, rec.tail.lastInSeqNo, rec.tail.outSeqNo);
    var last := EncrChatSetAccessHash(id, rec.keyed.accessHash);
    ApplyTwo(st, e, last);
    var c1 := c.(inSeqNo := rec.tail.inSeqNo, lastInSeqNo := rec.tail.lastInSeqNo, outSeqNo := rec.tail.outSeqNo);
    ApplyChatField(st, e);
    assert Apply(st, e) == st.(chats := st.chats[id := c1]);
    ApplyChatFieldTwice(st, c1, last);
  }

  lemma {:induction false} ApplyHashEvent(st: EngineState, rec: Record)
    requires rec.head.id in st.chats
    ensures ApplyAll(st, [EncrChatSetAccessHash(rec.head.id, rec.keyed.accessHash)])
      == st.(chats := st.chats[rec.head.id := st.chats[rec.head.id].(accessHash := rec.keyed.accessHash)])
  {
    ApplyOne(st, EncrChatSetAccessHash(rec.head.id, rec.keyed.accessHash));
  }

  /** The engine calls of one record create the chat (replacing any chat
      with that id) and set every field the record carries; nothing else in
      the engine changes. */
  lemma {:induction false} ApplyRecord(st: EngineState, rec: Record, v: int, sha1: AuthKey -> Digest)
    ensures ApplyAll(st, RecordEvents(rec, v, sha1))
         == st.(chats := st.chats[rec.head.id := LoadedChat(rec, v, sha1)])
  {
    var a := CreateEvents(rec);
    var b := KeyEvents(rec, v, sha1);
    var c := SeqEvents(rec, v) + [EncrChatSetAccessHash(rec.head.id, rec.keyed.accessHash)];
    AppendAssoc(a + b, SeqEvents(rec, v), [EncrChatSetAccessHash(rec.head.id, rec.keyed.accessHash)]);
    ApplyAllAppend(st, a + b, c);
    ApplyAllAppend(st, a, b);
    ApplyCreateEvents(st, rec);
    ApplyKeyEvents(ApplyAll(st, a), rec, v, sha1);
    var st2 := ApplyAll(ApplyAll(st, a), b);
    if v >= 1 {
      assert c == [EncrChatSetSeq(rec.head.id, rec.tail.inSeqNo, rec.tail.lastInSeqNo, rec.tail.outSeqNo),
                   EncrChatSetAccessHash(rec.head.id, rec.keyed.accessHash)];
      ApplySeqEvents(st2, rec);
    } else {
      assert c == [EncrChatSetAccessHash(rec.head.id, rec.keyed.accessHash)];
      ApplyHashEvent(st2, rec);
    }
  }

  /** A chat whose record reads back: its print name is not empty, shorter
      than read_secret_chat's 1000-byte buffer, and holds no NUL. */
  predicate StorableChat(c: SecretChat) {
    0 < |c.printName| < 1000 && 0 !in c.printName
  }

  /** The record of a chat, as the reader gets it from a version 2 file. */
  function ChatRecord(c: SecretChat): Record {
    Record(Head(c.id, c.printName), Ids(c.userId, c.adminId, c.date, c.ttl, c.layer),
           Keyed(c.accessHash, c.state, c.keyFingerprint, c.key),
           Tail(c.firstKeySha, c.inSeqNo, c.lastInSeqNo, c.outSeqNo))
  }

  lemma {:induction false} HeadReadBack(c: SecretChat, t: seq<byte>)
    requires StorableChat(c)
    ensures HeadOf(HeadBytes(c) + t) == Got(Head(c.id, c.printName), t)
  {
    var name := CStr(c.printName);
    assert name == c.printName;
    AppendAssoc(I32Bytes(c.id), I32Bytes(|name|) + name, t);
    AppendAssoc(I32Bytes(|name|), name, t);
    ReadI32Bytes(c.id, I32Bytes(|name|) + (name + t));
    ReadI32Bytes(|name|, name + t);
    ReadBytesOf(name, t);
  }

  lemma {:induction false} IdsReadBack(c: SecretChat, t: seq<byte>)
    ensures IdsOf(IdsBytes(c) + t) == Got(Ids(c.userId, c.adminId, c.date, c.ttl, c.layer), t)
  {
    var b4 := I32Bytes(c.ttl) + I32Bytes(c.layer);
    var b3 := I32Bytes(c.date) + b4;
    var b2 := I32Bytes(c.adminId) + b3;
    AppendAssoc(I32Bytes(c.userId), b2, t);
    AppendAssoc(I32Bytes(c.adminId), b3, t);
    AppendAssoc(I32Bytes(c.date), b4, t);
    AppendAssoc(I32Bytes(c.ttl), I32Bytes(c.layer), t);
    ReadI32Bytes(c.userId, b2 + t);
    ReadI32Bytes(c.adminId, b3 + t);
    ReadI32Bytes(c.date, b4 + t);
    ReadI32Bytes(c.ttl, I32Bytes(c.layer) + t);
    ReadI32Bytes(c.layer, t);
  }

  lemma {:induction false} KeyedReadBack(c: SecretChat, t: seq<byte>)
    ensures KeyedOf(KeyedBytes(c) + t) == Got(Keyed(c.accessHash, c.state, c.keyFingerprint, c.key), t)
  {
    var b3 := I64Bytes(c.keyFingerprint) + c.key;
    var b2 := I32Bytes(c.state) + b3;
    AppendAssoc(I64Bytes(c.accessHash), b2, t);
    AppendAssoc(I32Bytes(c.state), b3, t);
    AppendAssoc(I64Bytes(c.keyFingerprint), c.key, t);
    ReadI64Bytes(c.accessHash, b2 + t);
    ReadI32Bytes(c.state, b3 + t);
    ReadI64Bytes(c.keyFingerprint, c.key + t);
    ReadBytesOf(c.key, t);
  }

  lemma {:induction false} TailReadBack(c: SecretChat, t: seq<byte>)
    ensures TailOf(TailBytes(c) + t, 2) == Got(Tail(c.firstKeySha, c.inSeqNo, c.lastInSeqNo, c.outSeqNo), t)
  {
    var b3 := I32Bytes(c.lastInSeqNo) + I32Bytes(c.outSeqNo);
    var b2 := I32Bytes(c.inSeqNo) + b3;
    AppendAssoc(c.firstKeySha, b2, t);
    AppendAssoc(I32Bytes(c.inSeqNo), b3, t);
    AppendAssoc(I32Bytes(c.lastInSeqNo), I32Bytes(c.outSeqNo), t);
    ReadBytesOf(c.firstKeySha, b2 + t);
    ReadI32Bytes(c.inSeqNo, b3 + t);
    ReadI32Bytes(c.lastInSeqNo, I32Bytes(c.outSeqNo) + t);
    ReadI32Bytes(c.outSeqNo, t);
  }

  /** A record write_secret_chat wrote reads back, in version 2, as the
      chat's fields, leaving exactly the following bytes unread. */
  lemma {:induction false} RecordReadBack(c: SecretChat, t: seq<byte>)
    requires StorableChat(c)
    ensures RecordOf(RecordBytes(c) + t, 2) == Got(ChatRecord(c), t)
  {
    var r3 := KeyedBytes(c) + TailBytes(c);
    var r2 := IdsBytes(c) + r3;
    AppendAssoc(HeadBytes(c), r2, t);
    AppendAssoc(IdsBytes(c), r3, t);
    AppendAssoc(KeyedBytes(c), TailBytes(c), t);
    HeadReadBack(c, r2 + t);
    IdsReadBack(c, r3 + t);
    KeyedReadBack(c, TailBytes(c) + t);
    TailReadBack(c, t);
  }

  /** Loading a version 2 record of a chat gives that chat back exactly. */
  lemma {:induction false} ChatRecordLoads(c: SecretChat, sha1: AuthKey -> Digest)
    ensures LoadedChat(ChatRecord(c), 2, sha1) == c
  {
  }

  /** The engine calls of the record loop for records written from `chats`. */
  function LoadedChats(chats: seq<SecretChat>, sha1: AuthKey -> Digest): seq<Event>
    decreases |chats|
  {
    if chats == [] then [] else RecordEvents(ChatRecord(chats[0]), 2, sha1) + LoadedChats(chats[1..], sha1)
  }

  predicate AllStorable(chats: seq<SecretChat>) {
    forall k | 0 <= k < |chats| :: StorableChat(chats[k])
  }

  lemma {:induction false} AllStorableTail(chats: seq<SecretChat>)
    requires chats != [] && AllStorable(chats)
    ensures AllStorable(chats[1..])
  {
    forall k | 0 <= k < |chats[1..]| ensures StorableChat(chats[1..][k]) {
      assert chats[1..][k] == chats[k + 1];
    }
  }

  lemma {:induction false} ChatsBytesUnfold(chats: seq<SecretChat>, t: seq<byte>)
    requires chats != []
    ensures ChatsBytes(chats) + t == RecordBytes(chats[0]) + (ChatsBytes(chats[1..]) + t)
  {
    AppendAssoc(RecordBytes(chats[0]), ChatsBytes(chats[1..]), t);
  }

  lemma {:induction false} RecordReaderRead(c: SecretChat, u: seq<byte>, s: seq<byte>, sha1: AuthKey -> Digest)
    requires StorableChat(c) && s == RecordBytes(c) + u
    ensures RecordReader(2, sha1)(s) == Progress(RecordEvents(ChatRecord(c), 2, sha1), u)
  {
    RecordStepRead(c, u, sha1);
    ReaderIsStep(2, sha1, s);
  }

  lemma {:induction false} ReaderIsStep(v: int, sha1: AuthKey -> Digest, s: seq<byte>)
    ensures RecordReader(v, sha1)(s) == RecordStep(s, v, sha1)
  {
  }

  lemma {:induction false} RecordStepRead(c: SecretChat, u: seq<byte>, sha1: AuthKey -> Digest)
    requires StorableChat(c)
    ensures RecordStep(RecordBytes(c) + u, 2, sha1) == Progress(RecordEvents(ChatRecord(c), 2, sha1), u)
  {
    RecordReadBack(c, u);
  }

  /** The record loop over written chats reads the first chat's record and
      goes on after it. */
  lemma {:induction false} FirstRecordStep(chats: seq<SecretChat>, t: seq<byte>, sha1: AuthKey -> Digest)
    requires chats != [] && StorableChat(chats[0])
    ensures RecordReader(2, sha1)(ChatsBytes(chats) + t)
         == Progress(RecordEvents(ChatRecord(chats[0]), 2, sha1), ChatsBytes(chats[1..]) + t)
  {
    ChatsBytesUnfold(chats, t);
    RecordReaderRead(chats[0], ChatsBytes(chats[1..]) + t, ChatsBytes(chats) + t, sha1);
  }

  lemma {:induction false} FirstRecordRead(chats: seq<SecretChat>, t: seq<byte>, sha1: AuthKey -> Digest)
    requires chats != [] && StorableChat(chats[0])
    ensures RecordsEvents(ChatsBytes(chats) + t, 2, |chats|, sha1)
         == Prepend(RecordEvents(ChatRecord(chats[0]), 2, sha1), RecordsEvents(ChatsBytes(chats[1..]) + t, 2, |chats| - 1, sha1))
  {
    FirstRecordStep(chats, t, sha1);
    FirstTurnIs(RecordReader(2, sha1), ChatsBytes(chats) + t, |chats|,
                RecordEvents(ChatRecord(chats[0]), 2, sha1), ChatsBytes(chats[1..]) + t);
  }

  lemma {:induction false} ChatsReadBackStep(chats: seq<SecretChat>, t: seq<byte>, sha1: AuthKey -> Digest)
    requires chats != [] && AllStorable(chats)
    requires RecordsEvents(ChatsBytes(chats[1..]) + t, 2, |chats[1..]|, sha1) == Progress(LoadedChats(chats[1..], sha1), t)
    ensures RecordsEvents(ChatsBytes(chats) + t, 2, |chats|, sha1) == Progress(LoadedChats(chats, sha1), t)
  {
    assert StorableChat(chats[0]);
    FirstRecordRead(chats, t, sha1);
    assert |chats[1..]| == |chats| - 1;
  }

  lemma {:induction false} ChatsReadBackNil(t: seq<byte>, sha1: AuthKey -> Digest)
    ensures RecordsEvents(ChatsBytes([]) + t, 2, 0, sha1) == Progress(LoadedChats([], sha1), t)
  {
    assert [] + t == t;
  }

  /** Reading back the records written for `chats`, followed by any bytes
      `t`, yields the engine calls that load each of them in turn and stops
      at `t`. */
  lemma {:induction false} ChatsReadBack(chats: seq<SecretChat>, t: seq<byte>, sha1: AuthKey -> Digest)
    requires AllStorable(chats)
    ensures RecordsEvents(ChatsBytes(chats) + t, 2, |chats|, sha1) == Progress(LoadedChats(chats, sha1), t)
    decreases |chats|
  {
    if chats == [] {
      ChatsReadBackNil(t, sha1);
    } else {
      AllStorableTail(chats);
      ChatsReadBack(chats[1..], t, sha1);
      ChatsReadBackStep(chats, t, sha1);
    }
  }

  lemma {:induction false} SecretMagicRead(n: int32, rest: seq<byte>)
    ensures var f := SecretHeader(n) + rest;
      |f| >= 4 && U32Of(f[..4]) == SECRET_CHAT_FILE_MAGIC
      && f[4..] == I32Bytes(2) + (I32Bytes(n) + rest)
  {
    AppendAssoc(U32Bytes(SECRET_CHAT_FILE_MAGIC) + I32Bytes(2), I32Bytes(n), rest);
    AppendAssoc(U32Bytes(SECRET_CHAT_FILE_MAGIC), I32Bytes(2), I32Bytes(n) + rest);
    var f := SecretHeader(n) + rest;
    assert f[..4] == U32Bytes(SECRET_CHAT_FILE_MAGIC);
    U32RoundTrip(SECRET_CHAT_FILE_MAGIC);
  }

  /** read_secret_chat_file past a header that write_secret_chat_file
      wrote. */
  lemma {:induction false} SecretHeaderRead(n: int32, rest: seq<byte>, sha1: AuthKey -> Digest)
    requires n >= 0
    ensures SecretEvents(Some(SecretHeader(n) + rest), sha1)
         == match RecordsEvents(rest, 2, n as nat, sha1)
            case Aborted => Abort
            case Progress(es, _) => Done(es)
  {
    SecretMagicRead(n, rest);
    ReadI32Bytes(2, I32Bytes(n) + rest);
    ReadI32Bytes(n, rest);
  }

  /** A header, the records of `chats`, and any bytes after them. */
  lemma {:induction false} WrittenChatsRead(chats: seq<SecretChat>, f: seq<byte>, t: seq<byte>, sha1: AuthKey -> Digest)
    requires |chats| < 0x8000_0000 && AllStorable(chats)
    requires f == SecretHeader(|chats|) + ChatsBytes(chats) + t
    ensures SecretEvents(Some(f), sha1) == Done(LoadedChats(chats, sha1))
  {
    AppendAssoc(SecretHeader(|chats|), ChatsBytes(chats), t);
    SecretHeaderRead(|chats|, ChatsBytes(chats) + t, sha1);
    ChatsReadBack(chats, t, sha1);
  }

  /** The file after write_secret_chat_file: its header and records, then
      whatever an older file left behind. */
  lemma {:induction false} SecretFileLayout(prior: seq<byte>, peers: seq<Peer>)
    requires |peers| < 0x8000_0000
    ensures var w := SecretFileBytes(peers);
      var f := Overlay(prior, w);
      |w| <= |f| && f == SecretHeader(|OkChats(peers)|) + ChatsBytes(OkChats(peers)) + f[|w|..]
  {
    var w := SecretFileBytes(peers);
    assert w == SecretHeader(|OkChats(peers)|) + ChatsBytes(OkChats(peers));
    OverlayPrefix(prior, w);
  }

  /** Writing the secret-chat file and reading it back loads exactly the
      encrypted chats in state sc_ok, in the order they were written, each
      with all its fields, whatever an older, longer file left behind. */
  lemma {:induction false} SecretFileRoundTrip(prior: seq<byte>, peers: seq<Peer>, sha1: AuthKey -> Digest)
    requires |peers| < 0x8000_0000 && AllStorable(OkChats(peers))
    ensures SecretEvents(Some(Overlay(prior, SecretFileBytes(peers))), sha1)
         == Done(LoadedChats(OkChats(peers), sha1))
  {
    SecretFileReads(prior, peers, Overlay(prior, SecretFileBytes(peers)), sha1);
  }

  lemma {:induction false} SecretFileReads(prior: seq<byte>, peers: seq<Peer>, f: seq<byte>, sha1: AuthKey -> Digest)
    requires |peers| < 0x8000_0000 && AllStorable(OkChats(peers))
    requires f == Overlay(prior, SecretFileBytes(peers))
    ensures SecretEvents(Some(f), sha1) == Done(LoadedChats(OkChats(peers), sha1))
  {
    var chats := OkChats(peers);
    var w := SecretFileBytes(peers);
    SecretFileLayout(prior, peers);
    var t := f[|w|..];
    assert f == SecretHeader(|chats|) + ChatsBytes(chats) + t;
    WrittenChatsRead(chats, f, t, sha1);
  }

  /*** The engine after loading ***/

  /** The engine's chat table after the chats are created in turn: a later
      chat with the same id replaces an earlier one. */
  function StoreChats(m: map<int, SecretChat>, chats: seq<SecretChat>): map<int, SecretChat>
    decreases |chats|
  {
    if chats == [] then m else StoreChats(m[chats[0].id := chats[0]], chats[1..])
  }

  /** Loading the records of `chats` changes nothing but the chat table,
      which gets each chat with all its fields. */
  lemma {:induction false} ApplyLoadedChats(st: EngineState, chats: seq<SecretChat>, sha1: AuthKey -> Digest)
    ensures ApplyAll(st, LoadedChats(chats, sha1)) == st.(chats := StoreChats(st.chats, chats))
    decreases |chats|
  {
    if chats != [] {
      var c := chats[0];
      ApplyAllAppend(st, RecordEvents(ChatRecord(c), 2, sha1), LoadedChats(chats[1..], sha1));
      ApplyRecord(st, ChatRecord(c), 2, sha1);
      ChatRecordLoads(c, sha1);
      ApplyLoadedChats(st.(chats := st.chats[c.id := c]), chats[1..], sha1);
    }
  }

  predicate DistinctIds(chats: seq<SecretChat>) {
    forall i, j | 0 <= i < j < |chats| :: chats[i].id != chats[j].id
  }

  lemma {:induction false} DistinctIdsTail(chats: seq<SecretChat>)
    requires chats != [] && DistinctIds(chats)
    ensures DistinctIds(chats[1..])
    ensures forall i | 0 <= i < |chats[1..]| :: chats[1..][i].id != chats[0].id
  {
    forall i, j | 0 <= i < j < |chats[1..]| ensures chats[1..][i].id != chats[1..][j].id {
      assert chats[1..][i] == chats[i + 1] && chats[1..][j] == chats[j + 1];
    }
    forall i | 0 <= i < |chats[1..]| ensures chats[1..][i].id != chats[0].id {
      assert chats[1..][i] == chats[i + 1];
    }
  }

  /** Storing chats none of which has id `k` leaves entry `k` as it was. */
  lemma {:induction false} StoreChatsKeeps(m: map<int, SecretChat>, chats: seq<SecretChat>, k: int)
    requires forall i | 0 <= i < |chats| :: chats[i].id != k
    ensures var r := StoreChats(m, chats); (k in r <==> k in m) && (k in m ==> r[k] == m[k])
    decreases |chats|
  {
    if chats != [] {
      forall i | 0 <= i < |chats[1..]| ensures chats[1..][i].id != k {
        assert chats[1..][i] == chats[i + 1];
      }
      StoreChatsKeeps(m[chats[0].id := chats[0]], chats[1..], k);
    }
  }

  /** With distinct ids, every stored chat ends up in the table as it is. */
  lemma {:induction false} StoreChatsHolds(m: map<int, SecretChat>, chats: seq<SecretChat>)
    requires DistinctIds(chats)
    ensures var r := StoreChats(m, chats);
      forall i | 0 <= i < |chats| :: chats[i].id in r && r[chats[i].id] == chats[i]
    decreases |chats|
  {
    if chats != [] {
      var c := chats[0];
      var m' := m[c.id := c];
      var r := StoreChats(m, chats);
      DistinctIdsTail(chats);
      StoreChatsHolds(m', chats[1..]);
      StoreChatsKeeps(m', chats[1..], c.id);
      forall i | 0 <= i < |chats| ensures chats[i].id in r && r[chats[i].id] == chats[i] {
        if i > 0 {
          assert chats[i] == chats[1..][i - 1];
        }
      }
    }
  }

  /** The peer tree holds each peer id at most once. */
  predicate DistinctPeers(peers: seq<Peer>) {
    forall i, j | 0 <= i < j < |peers| :: peers[i].Id() != peers[j].Id()
  }

  lemma {:induction false} OkChatsDistinct(peers: seq<Peer>)
    requires DistinctPeers(peers)
    ensures DistinctIds(OkChats(peers))
    decreases |peers|
  {
    if peers != [] {
      var p := peers[0];
      var later := OkChats(peers[1..]);
      forall i, j | 0 <= i < j < |peers[1..]| ensures peers[1..][i].Id() != peers[1..][j].Id() {
        assert peers[1..][i] == peers[i + 1] && peers[1..][j] == peers[j + 1];
      }
      OkChatsDistinct(peers[1..]);
      if Saved(p) {
        forall j | 0 <= j < |later| ensures later[j].id != p.secret.id {
          var c := later[j];
          OkChatsIff(peers[1..], c);
          var q :| 0 <= q < |peers[1..]| && peers[1..][q] == EncrChatPeer(c);
          assert peers[q + 1].Id() == PeerId(EncrChat, c.id);
          assert p.Id() == PeerId(EncrChat, p.secret.id);
        }
        var chats := [p.secret] + later;
        assert OkChats(peers) == chats;
        forall i, j | 0 <= i < j < |chats| ensures chats[i].id != chats[j].id {
          assert chats[j] == later[j - 1];
          if i > 0 {
            assert chats[i] == later[i - 1];
          }
        }
      } else {
        assert OkChats(peers) == [] + later;
      }
    }
  }

  /** After write_secret_chat_file and read_secret_chat_file, every
      encrypted chat the engine held in state sc_ok is back with all its
      fields, and nothing but the chat table changes. */
  lemma {:induction false} SecretFileRestores(prior: seq<byte>, peers: seq<Peer>, st: EngineState, sha1: AuthKey -> Digest)
    requires |peers| < 0x8000_0000 && AllStorable(OkChats(peers)) && DistinctPeers(peers)
    ensures var r := SecretEvents(Some(Overlay(prior, SecretFileBytes(peers))), sha1);
      && r.Done?
      && var st' := ApplyAll(st, r.events);
      && st' == st.(chats := st'.chats)
      && forall i | 0 <= i < |peers| && Saved(peers[i]) ::
           peers[i].secret.id in st'.chats && st'.chats[peers[i].secret.id] == peers[i].secret
  {
    SecretFileRoundTrip(prior, peers, sha1);
    LoadedChatsRestore(peers, st, sha1);
  }

  lemma {:induction false} LoadedChatsRestore(peers: seq<Peer>, st: EngineState, sha1: AuthKey -> Digest)
    requires DistinctPeers(peers)
    ensures var st' := ApplyAll(st, LoadedChats(OkChats(peers), sha1));
      && st' == st.(chats := st'.chats)
      && forall i | 0 <= i < |peers| && Saved(peers[i]) ::
           peers[i].secret.id in st'.chats && st'.chats[peers[i].secret.id] == peers[i].secret
  {
    var chats := OkChats(peers);
    ApplyLoadedChats(st, chats, sha1);
    OkChatsDistinct(peers);
    StoreChatsHolds(st.chats, chats);
    forall i | 0 <= i < |peers| && Saved(peers[i])
      ensures peers[i].secret in chats
    {
      OkChatsIff(peers, peers[i].secret);
      assert EncrChatPeer(peers[i].secret) == peers[i];
    }
  }

  /*** Older versions and fatal records ***/

  /** A record of version 0 or 1 gets SHA-1 of its key as digest; a version
      0 record never sets the sequence numbers, which stay 0. */
  lemma {:induction false} OlderRecordLoads(st: EngineState, rec: Record, v: int, sha1: AuthKey -> Digest)
    requires v < 2
    ensures var chats := ApplyAll(st, RecordEvents(rec, v, sha1)).chats;
      && rec.head.id in chats
      && chats[rec.head.id].firstKeySha == sha1(rec.keyed.key)
      && (v < 1 ==> && chats[rec.head.id].inSeqNo == 0 && chats[rec.head.id].lastInSeqNo == 0
                    && chats[rec.head.id].outSeqNo == 0
                    && forall e | e in RecordEvents(rec, v, sha1) :: !e.EncrChatSetSeq?)
  {
    ApplyRecord(st, rec, v, sha1);
  }

  /** After the magic, a version other than 0, 1 or 2 is fatal. */
  lemma {:induction false} BadVersionAborts(v: int32, rest: seq<byte>, sha1: AuthKey -> Digest)
    requires !(0 <= v <= 2)
    ensures SecretEvents(Some(U32Bytes(SECRET_CHAT_FILE_MAGIC) + (I32Bytes(v) + rest)), sha1) == Abort
  {
    var f := U32Bytes(SECRET_CHAT_FILE_MAGIC) + (I32Bytes(v) + rest);
    assert f[..4] == U32Bytes(SECRET_CHAT_FILE_MAGIC) && f[4..] == I32Bytes(v) + rest;
    U32RoundTrip(SECRET_CHAT_FILE_MAGIC);
    ReadI32Bytes(v, rest);
  }

  /** So is a negative record count. */
  lemma {:induction false} NegativeCountAborts(v: int32, n: int32, rest: seq<byte>, sha1: AuthKey -> Digest)
    requires 0 <= v <= 2 && n < 0
    ensures SecretEvents(Some(U32Bytes(SECRET_CHAT_FILE_MAGIC) + (I32Bytes(v) + (I32Bytes(n) + rest))), sha1) == Abort
  {
    var f := U32Bytes(SECRET_CHAT_FILE_MAGIC) + (I32Bytes(v) + (I32Bytes(n) + rest));
    assert f[..4] == U32Bytes(SECRET_CHAT_FILE_MAGIC) && f[4..] == I32Bytes(v) + (I32Bytes(n) + rest);
    U32RoundTrip(SECRET_CHAT_FILE_MAGIC);
    ReadI32Bytes(v, I32Bytes(n) + rest);
    ReadI32Bytes(n, rest);
  }

  /** A record whose print-name length is not in (0, 1000) is fatal. */
  lemma {:induction false} BadNameLengthAborts(id: int32, l: int32, rest: seq<byte>, v: int, sha1: AuthKey -> Digest)
    requires !(0 < l < 1000)
    ensures RecordStep(I32Bytes(id) + (I32Bytes(l) + rest), v, sha1) == Aborted
  {
    ReadI32Bytes(id, I32Bytes(l) + rest);
    ReadI32Bytes(l, rest);
  }

  /** write_secret_chat writes a chat with an empty print name (length 0),
      which read_secret_chat then refuses. */
  lemma {:induction false} EmptyNameRecordAborts(c: SecretChat, u: seq<byte>, sha1: AuthKey -> Digest)
    requires CStr(c.printName) == []
    ensures RecordReader(2, sha1)(RecordBytes(c) + u) == Aborted
  {
    var body := IdsBytes(c) + (KeyedBytes(c) + TailBytes(c));
    assert HeadBytes(c) == I32Bytes(c.id) + I32Bytes(0);
    AppendAssoc(HeadBytes(c), body, u);
    AppendAssoc(I32Bytes(c.id), I32Bytes(0), body + u);
    BadNameLengthAborts(c.id, 0, body + u, 2, sha1);
    ReaderIsStep(2, sha1, RecordBytes(c) + u);
  }

  lemma {:induction false} ChatsBytesSplit(chats: seq<SecretChat>, j: nat)
    requires j <= |chats|
    ensures ChatsBytes(chats) == ChatsBytes(chats[..j]) + ChatsBytes(chats[j..])
    decreases j
  {
    if j > 0 {
      ChatsBytesSplit(chats[1..], j - 1);
      assert chats[..j][0] == chats[0] && chats[..j][1..] == chats[1..][..j - 1];
      assert chats[1..][j - 1..] == chats[j..];
      AppendAssoc(RecordBytes(chats[0]), ChatsBytes(chats[1..][..j - 1]), ChatsBytes(chats[j..]));
    } else {
      assert chats[..0] == [] && chats[0..] == chats;
    }
  }

  /** The records before the `j`-th read back whatever follows them. */
  lemma {:induction false} PrefixReadBack(chats: seq<SecretChat>, j: nat, t: seq<byte>, sha1: AuthKey -> Digest)
    requires j <= |chats| && AllStorable(chats[..j])
    ensures RecordsEvents(ChatsBytes(chats) + t, 2, j, sha1)
         == Progress(LoadedChats(chats[..j], sha1), ChatsBytes(chats[j..]) + t)
  {
    ChatsBytesSplit(chats, j);
    AppendAssoc(ChatsBytes(chats[..j]), ChatsBytes(chats[j..]), t);
    assert |chats[..j]| == j;
    ChatsReadBack(chats[..j], ChatsBytes(chats[j..]) + t, sha1);
  }

  lemma {:induction false} EmptyNameAt(chats: seq<SecretChat>, j: nat, t: seq<byte>, sha1: AuthKey -> Digest)
    requires j < |chats| && CStr(chats[j].printName) == []
    ensures RecordReader(2, sha1)(ChatsBytes(chats[j..]) + t) == Aborted
  {
    assert chats[j..][0] == chats[j];
    AppendAssoc(RecordBytes(chats[j]), ChatsBytes(chats[j..][1..]), t);
    EmptyNameRecordAborts(chats[j], ChatsBytes(chats[j..][1..]) + t, sha1);
  }

  /** The records before the `j`-th read back; the `j`-th one has an empty
      print name. */
  lemma {:induction false} EmptyNameStops(chats: seq<SecretChat>, j: nat, t: seq<byte>, sha1: AuthKey -> Digest)
    requires j < |chats| && AllStorable(chats[..j]) && CStr(chats[j].printName) == []
    ensures RecordsEvents(ChatsBytes(chats) + t, 2, |chats|, sha1).Aborted?
  {
    PrefixReadBack(chats, j, t, sha1);
    EmptyNameAt(chats, j, t, sha1);
    TurnsAbortAfter(RecordReader(2, sha1), ChatsBytes(chats) + t, j, |chats|);
  }

  /** Hence a saved file with such a chat cannot be loaded: the next
      read_secret_chat_file fails on it. */
  lemma {:induction false} EmptyNameAborts(prior: seq<byte>, peers: seq<Peer>, j: nat, sha1: AuthKey -> Digest)
    requires |peers| < 0x8000_0000
    requires j < |OkChats(peers)| && AllStorable(OkChats(peers)[..j]) && CStr(OkChats(peers)[j].printName) == []
    ensures SecretEvents(Some(Overlay(prior, SecretFileBytes(peers))), sha1) == Abort
  {
    var chats := OkChats(peers);
    var f := Overlay(prior, SecretFileBytes(peers));
    SecretFileLayout(prior, peers);
    var t := f[|SecretFileBytes(peers)|..];
    AppendAssoc(SecretHeader(|chats|), ChatsBytes(chats), t);
    SecretHeaderRead(|chats|, ChatsBytes(chats) + t, sha1);
    EmptyNameStops(chats, j, t, sha1);
  }
}
