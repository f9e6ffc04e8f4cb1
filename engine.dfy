/** The part of the protocol engine's state (tgl's `struct tgl_state`) that
    the stores read and restore, and the engine's mutation calls (`bl_do_*`)
    as recorded events. The stores never touch this state directly: readers
    emit events, and `Apply` gives the effect of one event on the state. */
module Engine {
  import opened Bytes

  type AuthKey = k: seq<byte> | |k| == 256 witness seq(256, _ => 0)
  type Digest = d: seq<byte> | |d| == 20 witness seq(20, _ => 0)

  /** The all-zero key and digest a freshly created chat holds. */
  function ZeroKey(): AuthKey { seq(256, _ => 0) }
  function ZeroDigest(): Digest { seq(20, _ => 0) }

  /** A byte string held by the engine (a DC address, a print name); its
      length always fits the C `int` the stores write it with. */
  type CString = s: seq<byte> | |s| < 0x8000_0000

  /** `sc_ok` in tgl's `enum tgl_secret_chat_state` (sc_none, sc_waiting,
      sc_request, sc_ok, sc_deleted). */
  const SC_OK: int32 := 3

  /** The update-stream position: TLS->pts, qts, seq and date. */
  datatype Cursor = Cursor(pts: int32, qts: int32, seqNo: int32, date: int32)

  /** One entry of TLS->DC_list. `authKey` is Some exactly when the DC has an
      authorization key (`tgl_authorized_dc`); `signed` is the DC's
      `has_auth` flag, which bl_do_dc_signed sets and `tgl_signed_dc`
      reports. */
  datatype DcInfo = DcInfo(ip: CString, port: int32, authKeyId: int64, authKey: Option<AuthKey>, signed: bool)

  /** `struct tgl_secret_chat`, restricted to the fields the secret-chat store
      keeps. */
  datatype SecretChat = SecretChat(
    id: int32, printName: CString, userId: int32, adminId: int32,
    date: int32, ttl: int32, layer: int32, accessHash: int64, state: int32,
    keyFingerprint: int64, key: AuthKey, firstKeySha: Digest,
    inSeqNo: int32, lastInSeqNo: int32, outSeqNo: int32)

  datatype PeerType = User | Chat | EncrChat
  datatype PeerId = PeerId(kind: PeerType, num: int)

  /** An entry of the engine's peer tree, as the peer iterator hands it out. */
  datatype Peer = UserPeer(userId: int32) | ChatPeer(chatId: int32) | EncrChatPeer(secret: SecretChat) {
    function Id(): PeerId {
      match this
      case UserPeer(u) => PeerId(User, u)
      case ChatPeer(c) => PeerId(Chat, c)
      case EncrChatPeer(s) => PeerId(EncrChat, s.id)
    }
  }

  /** One call into the engine's binlog mutation interface. */
  datatype Event =
    | SetSeq(seqNo: int32)                                        // bl_do_set_seq
    | SetPts(pts: int32)                                          // bl_do_set_pts
    | SetQts(qts: int32)                                          // bl_do_set_qts
    | SetDate(date: int32)                                        // bl_do_set_date
    | DcOption(dc: int32, flags: int, name: string, ip: CString, port: int32)  // bl_do_dc_option
    | SetAuthKey(dc: int32, key: AuthKey)                           // bl_do_set_auth_key_id
    | DcSigned(dc: int32)                                         // bl_do_dc_signed
    | SetWorkingDc(dc: int32)                                     // bl_do_set_working_dc
    | SetOurId(ourId: int32)                                      // bl_do_set_our_id
    | EncrChatCreate(chat: int32, userId: int32, adminId: int32, printName: CString)
    | EncrChatSetDate(chat: int32, date: int32)
    | EncrChatSetTtl(chat: int32, ttl: int32)
    | EncrChatSetLayer(chat: int32, layer: int32)
    | EncrChatSetState(chat: int32, state: int32)
    | EncrChatSetKey(chat: int32, key: AuthKey, fingerprint: int64)
    | EncrChatSetSha(chat: int32, sha: Digest)
    | EncrChatSetSeq(chat: int32, inSeqNo: int32, lastInSeqNo: int32, outSeqNo: int32)
    | EncrChatSetAccessHash(chat: int32, accessHash: int64)

  datatype EngineState = EngineState(
    cursor: Cursor,
    maxDcNum: int32,
    dcs: map<int, DcInfo>,
    workingDc: int32,
    ourId: int32,
    chats: map<int, SecretChat>)

  /** The engine right after tgl_init: nothing loaded yet. */
  const Initial: EngineState :=
    EngineState(Cursor(0, 0, 0, 0), 0, map[], 0, 0, map[])

  /** A secret chat as bl_do_encr_chat_create leaves it: every field the
      create call does not set is zero. */
  function CreatedChat(chat: int32, userId: int32, adminId: int32, name: CString): SecretChat {
    SecretChat(chat, name, userId, adminId, 0, 0, 0, 0, 0, 0,
               ZeroKey(), ZeroDigest(), 0, 0, 0)
  }

  /** The effect of one `bl_do_encr_chat_set_*` call on the chat it names. */
  function SetChatField(p: SecretChat, e: Event): SecretChat {
    match e
    case EncrChatSetDate(_, v) => p.(date := v)
    case EncrChatSetTtl(_, v) => p.(ttl := v)
    case EncrChatSetLayer(_, v) => p.(layer := v)
    case EncrChatSetState(_, v) => p.(state := v)
    case EncrChatSetKey(_, k, fp) => p.(key := k, keyFingerprint := fp)
    case EncrChatSetSha(_, d) => p.(firstKeySha := d)
    case EncrChatSetSeq(_, i, l, o) => p.(inSeqNo := i, lastInSeqNo := l, outSeqNo := o)
    case EncrChatSetAccessHash(_, h) => p.(accessHash := h)
    case _ => p
  }

  /** The effect of one engine call on the engine state. */
  function Apply(st: EngineState, e: Event): EngineState {
    match e
    case SetSeq(v) => st.(cursor := st.cursor.(seqNo := v))
    case SetPts(v) => st.(cursor := st.cursor.(pts := v))
    case SetQts(v) => st.(cursor := st.cursor.(qts := v))
    case SetDate(v) => st.(cursor := st.cursor.(date := v))
    case DcOption(dc, _, _, ip, port) =>
      st.(dcs := st.dcs[dc := if dc in st.dcs then st.dcs[dc].(ip := ip, port := port)
                             else DcInfo(ip, port, 0, None, false)],
          maxDcNum := if dc > st.maxDcNum then dc else st.maxDcNum)
    case SetAuthKey(dc, key) =>
      if dc in st.dcs then st.(dcs := st.dcs[dc := st.dcs[dc].(authKey := Some(key))]) else st
    case DcSigned(dc) =>
      if dc in st.dcs then st.(dcs := st.dcs[dc := st.dcs[dc].(signed := true)]) else st
    case SetWorkingDc(dc) => st.(workingDc := dc)
    case SetOurId(v) => st.(ourId := v)
    case EncrChatCreate(c, u, a, name) => st.(chats := st.chats[c := CreatedChat(c, u, a, name)])
    case _ =>
      if e.chat in st.chats then st.(chats := st.chats[e.chat := SetChatField(st.chats[e.chat], e)]) else st
  }

  /** A `bl_do_encr_chat_set_*` call. */
  predicate ChatFieldEvent(e: Event) {
    e.EncrChatSetDate? || e.EncrChatSetTtl? || e.EncrChatSetLayer? || e.EncrChatSetState?
    || e.EncrChatSetKey? || e.EncrChatSetSha? || e.EncrChatSetSeq? || e.EncrChatSetAccessHash?
  }

  lemma {:induction false} UpdateTwice<K, V>(m: map<K, V>, k: K, a: V, b: V)
    ensures m[k := a][k := b] == m[k := b]
  {
  }

  /** Two field updates in a row on a chat the engine holds. */
  lemma {:induction false} ApplyChatFieldTwice(st: EngineState, c: SecretChat, e: Event)
    requires ChatFieldEvent(e)
    ensures Apply(st.(chats := st.chats[e.chat := c]), e) == st.(chats := st.chats[e.chat := SetChatField(c, e)])
  {
    var st1 := st.(chats := st.chats[e.chat := c]);
    ApplyChatField(st1, e);
    UpdateTwice(st.chats, e.chat, c, SetChatField(c, e));
  }

  /** A field update on a chat the engine holds changes that chat alone. */
  lemma {:induction false} ApplyChatField(st: EngineState, e: Event)
    requires ChatFieldEvent(e) && e.chat in st.chats
    ensures Apply(st, e) == st.(chats := st.chats[e.chat := SetChatField(st.chats[e.chat], e)])
  {
  }

  function ApplyAll(st: EngineState, es: seq<Event>): EngineState
    decreases |es|
  {
    if es == [] then st else ApplyAll(Apply(st, es[0]), es[1..])
  }

  lemma {:induction false} ApplyOne(st: EngineState, e: Event)
    ensures ApplyAll(st, [e]) == Apply(st, e)
  {
    assert [e][1..] == [];
  }

  lemma {:induction false} ApplyTwo(st: EngineState, e1: Event, e2: Event)
    ensures ApplyAll(st, [e1, e2]) == Apply(Apply(st, e1), e2)
  {
    assert [e1, e2][1..] == [e2];
    ApplyOne(Apply(st, e1), e2);
  }

  lemma {:induction false} ApplyThree(st: EngineState, e1: Event, e2: Event, e3: Event)
    ensures ApplyAll(st, [e1, e2, e3]) == Apply(Apply(Apply(st, e1), e2), e3)
  {
    assert [e1, e2, e3][1..] == [e2, e3];
    ApplyTwo(Apply(st, e1), e2, e3);
  }

  lemma {:induction false} ApplyFour(st: EngineState, e1: Event, e2: Event, e3: Event, e4: Event)
    ensures ApplyAll(st, [e1, e2, e3, e4]) == Apply(Apply(Apply(Apply(st, e1), e2), e3), e4)
  {
    assert [e1, e2, e3, e4][1..] == [e2, e3, e4];
    ApplyThree(Apply(st, e1), e2, e3, e4);
  }

  lemma {:induction false} ApplyAllAppend(st: EngineState, a: seq<Event>, b: seq<Event>)
    ensures ApplyAll(st, a + b) == ApplyAll(ApplyAll(st, a), b)
    decreases |a|
  {
    if a == [] {
      assert a + b == b;
    } else {
      assert (a + b)[0] == a[0];
      assert (a + b)[1..] == a[1..] + b;
      ApplyAllAppend(Apply(st, a[0]), a[1..], b);
    }
  }

  /** Where a store reader stands part-way through a file: it has aborted
      (a C `assert` failed), or it has made these engine calls and `rest` is
      still unread. */
  datatype Partial = Aborted | Progress(events: seq<Event>, rest: seq<byte>)

  function Prepend(es: seq<Event>, r: Partial): Partial {
    match r
    case Aborted => Aborted
    case Progress(more, rest) => Progress(es + more, rest)
  }

  lemma {:induction false} PrependTwice(a: seq<Event>, b: seq<Event>, r: Partial)
    ensures Prepend(a, Prepend(b, r)) == Prepend(a + b, r)
  {
    if r.Progress? {
      assert a + (b + r.events) == (a + b) + r.events;
    }
  }

  lemma {:induction false} PrependNone(r: Partial)
    ensures Prepend([], r) == r
  {
    if r.Progress? {
      assert [] + r.events == r.events;
    }
  }

  /** One turn of a reader loop is one `step`. */
  lemma {:induction false} OneTurn(step: seq<byte> -> Partial, s: seq<byte>)
    ensures Turns(step, s, 1) == step(s)
  {
    PrependNone(step(s));
  }

  /** `n` turns of a reader loop whose every turn reads one item with
      `step`: the engine calls made so far and the bytes not read yet, or
      Aborted once an item could not be read. */
  function Turns(step: seq<byte> -> Partial, s: seq<byte>, n: nat): Partial
    decreases n
  {
    if n == 0 then Progress([], s)
    else match Turns(step, s, n - 1)
      case Aborted => Aborted
      case Progress(es, r) => Prepend(es, step(r))
  }

  /** Once an item could not be read, the loop stays aborted. */
  lemma {:induction false} TurnsStayAborted(step: seq<byte> -> Partial, s: seq<byte>, n: nat, m: nat)
    requires n <= m && Turns(step, s, n).Aborted?
    ensures Turns(step, s, m).Aborted?
    decreases m
  {
    if n < m {
      TurnsStayAborted(step, s, n, m - 1);
    }
  }

  /** n + m turns are n turns, then m more from where the first n
      stopped. */
  lemma {:induction false} TurnsSplit(step: seq<byte> -> Partial, s: seq<byte>, n: nat, m: nat)
    requires Turns(step, s, n).Progress?
    ensures var first := Turns(step, s, n);
      Turns(step, s, n + m) == Prepend(first.events, Turns(step, first.rest, m))
    decreases m
  {
    var first := Turns(step, s, n);
    if m == 0 {
      assert first.events + [] == first.events;
    } else {
      TurnsSplit(step, s, n, m - 1);
      var later := Turns(step, first.rest, m - 1);
      assert n + m - 1 == n + (m - 1);
      if later.Progress? {
        PrependTwice(first.events, later.events, step(later.rest));
      }
    }
  }

  /** A loop of k turns whose first turn reads an item goes on after it. */
  lemma {:induction false} FirstTurn(step: seq<byte> -> Partial, s: seq<byte>, k: nat)
    requires 0 < k && step(s).Progress?
    ensures Turns(step, s, k) == Prepend(step(s).events, Turns(step, step(s).rest, k - 1))
  {
    OneTurn(step, s);
    TurnsSplit(step, s, 1, k - 1);
    assert 1 + (k - 1) == k;
  }

  /** One more turn of the loop, after `i` turns that read `es` and left
      `rest`. */
  lemma {:induction false} TurnsNext(step: seq<byte> -> Partial, s: seq<byte>, i: nat, es: seq<Event>, rest: seq<byte>, next: Partial)
    requires Turns(step, s, i) == Progress(es, rest) && step(rest) == next
    ensures next.Aborted? ==> Turns(step, s, i + 1) == Aborted
    ensures next.Progress? ==> Turns(step, s, i + 1) == Progress(es + next.events, next.rest)
  {
  }

  /** The first turn read `es` and left `rest`. */
  lemma {:induction false} FirstTurnIs(step: seq<byte> -> Partial, s: seq<byte>, k: nat, es: seq<Event>, rest: seq<byte>)
    requires 0 < k && step(s) == Progress(es, rest)
    ensures Turns(step, s, k) == Prepend(es, Turns(step, rest, k - 1))
  {
    FirstTurn(step, s, k);
  }

  /** A reader loop that fails on the turn after the `j`-th fails as a
      whole. */
  lemma {:induction false} TurnsAbortAfter(step: seq<byte> -> Partial, s: seq<byte>, j: nat, k: nat)
    requires j < k && Turns(step, s, j).Progress? && step(Turns(step, s, j).rest).Aborted?
    ensures Turns(step, s, k).Aborted?
  {
    TurnsStayAborted(step, s, j + 1, k);
  }

  /** A reader loop whose next turn fails fails as a whole. */
  lemma {:induction false} FirstTurnAborts(step: seq<byte> -> Partial, s: seq<byte>, k: nat)
    requires 0 < k && step(s).Aborted?
    ensures Turns(step, s, k).Aborted?
  {
    OneTurn(step, s);
    TurnsStayAborted(step, s, 1, k);
  }

  /** How a store reader ends: the process aborts on a failed C `assert`, or
      the reader returns after making these engine calls. */
  datatype Outcome = Done(events: seq<Event>) | Abort
}
