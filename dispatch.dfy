/** The decisions telegram-purple.c takes on the engine's callbacks and the
    client's requests, with every libpurple and engine call they lead to
    recorded as an effect. */
module Dispatch {
  import opened Bytes
  import opened Engine
  import PrintName
  import SecretFile

  /*** Buddy names and find_peer_by_name ***/

  /** `isspace` in the C locale, on the bytes of a buddy name. */
  predicate IsSpace(b: byte) {
    b == ' ' as int || 9 <= b <= 13
  }

  predicate IsDigit(b: byte) {
    '0' as int <= b <= '9' as int
  }

  function DropSpaces(s: seq<byte>): seq<byte>
    decreases |s|
  {
    if s != [] && IsSpace(s[0]) then DropSpaces(s[1..]) else s
  }

  /** The longest prefix of `s` made of decimal digits. */
  function LeadingDigits(s: seq<byte>): (d: seq<byte>)
    ensures forall k | 0 <= k < |d| :: IsDigit(d[k])
    decreases |s|
  {
    if s == [] || !IsDigit(s[0]) then [] else [s[0]] + LeadingDigits(s[1..])
  }

  /** The number a string of digits spells. */
  function DigitsValue(d: seq<byte>): nat
    requires forall k | 0 <= k < |d| :: IsDigit(d[k])
    decreases |d|
  {
    if d == [] then 0
    else
      assert IsDigit(d[|d| - 1]);
      DigitsValue(d[..|d| - 1]) * 10 + (d[|d| - 1] - '0' as int)
  }

  /** `atoi`: leading white space, an optional sign, then as many digits as
      follow. */
  function Atoi(s: seq<byte>): int {
    var t := DropSpaces(s);
    if t != [] && t[0] == Minus then -(DigitsValue(LeadingDigits(t[1..])) as int)
    else if t != [] && t[0] == '+' as int then DigitsValue(LeadingDigits(t[1..]))
    else DigitsValue(LeadingDigits(t))
  }

  /** `"%d"`: how a peer number becomes the buddy name the client later
      passes back as `who`. */
  function IdName(x: int): seq<byte> {
    if x < 0 then [Minus] + PrintName.Decimal(-x) else PrintName.Decimal(x)
  }

  const Minus: byte := '-' as int

  lemma {:induction false} AllDigitsLead(d: seq<byte>)
    requires forall k | 0 <= k < |d| :: IsDigit(d[k])
    ensures LeadingDigits(d) == d
    decreases |d|
  {
    if d != [] {
      AllDigitsLead(d[1..]);
    }
  }

  /** The digits of `%d` spell the number back. */
  lemma {:induction false} DecimalValue(n: nat)
    ensures forall k | 0 <= k < |PrintName.Decimal(n)| :: IsDigit(PrintName.Decimal(n)[k])
    ensures DigitsValue(PrintName.Decimal(n)) == n
    decreases n
  {
    PrintName.DecimalDigits(n);
    var s := PrintName.Decimal(n);
    if n < 10 {
      assert s[..0] == [];
    } else {
      DecimalValue(n / 10);
      assert s[..|s| - 1] == PrintName.Decimal(n / 10);
    }
  }

  /** `atoi` of a non-empty run of digits is the number they spell, and
      with a minus sign in front its negation. */
  lemma {:induction false} AtoiDigits(d: seq<byte>)
    requires d != [] && forall k | 0 <= k < |d| :: IsDigit(d[k])
    ensures Atoi(d) == DigitsValue(d)
    ensures Atoi([Minus] + d) == -(DigitsValue(d) as int)
  {
    AllDigitsLead(d);
    assert IsDigit(d[0]);
    assert DropSpaces(d) == d;
    var m := [Minus] + d;
    assert m[1..] == d;
    assert DropSpaces(m) == m;
  }

  /** `atoi` reads back the number `"%d"` printed. */
  lemma {:induction false} AtoiIdName(x: int)
    ensures Atoi(IdName(x)) == x
  {
    var n: nat := if x < 0 then -x else x;
    DecimalValue(n);
    AtoiDigits(PrintName.Decimal(n));
  }

  /** `find_peer_by_name`: the buddy name's number as a user, else as a
      chat, else as a secret chat. */
  function FindPeerByName(peers: map<PeerId, Peer>, who: seq<byte>): Option<Peer> {
    var n := Atoi(who);
    if PeerId(User, n) in peers then Some(peers[PeerId(User, n)])
    else if PeerId(Chat, n) in peers then Some(peers[PeerId(Chat, n)])
    else if PeerId(EncrChat, n) in peers then Some(peers[PeerId(EncrChat, n)])
    else None
  }

  /** The kinds in the order find_peer_by_name tries them. */
  function KindRank(k: PeerType): nat {
    match k
    case User => 0
    case Chat => 1
    case EncrChat => 2
  }

  /** `k` is the first kind, in the order user, chat, secret chat, under
      which the number `n` names a peer. */
  predicate FirstKind(peers: map<PeerId, Peer>, n: int, k: PeerType) {
    PeerId(k, n) in peers && forall j: PeerType | KindRank(j) < KindRank(k) :: PeerId(j, n) !in peers
  }

  /** find_peer_by_name returns the peer of the first kind that has the
      number; NULL exactly when no kind has it. */
  lemma {:induction false} FindPeerFirstKind(peers: map<PeerId, Peer>, who: seq<byte>)
    ensures FindPeerByName(peers, who).None? <==> forall k: PeerType :: PeerId(k, Atoi(who)) !in peers
    ensures FindPeerByName(peers, who).Some? ==>
      exists k: PeerType :: FirstKind(peers, Atoi(who), k)
        && FindPeerByName(peers, who).value == peers[PeerId(k, Atoi(who))]
  {
    var n := Atoi(who);
    if PeerId(User, n) in peers {
      assert FirstKind(peers, n, User);
    } else if PeerId(Chat, n) in peers {
      assert forall j: PeerType | KindRank(j) < KindRank(Chat) :: j == User;
      assert FirstKind(peers, n, Chat);
    } else if PeerId(EncrChat, n) in peers {
      assert forall j: PeerType | KindRank(j) < KindRank(EncrChat) :: j == User || j == Chat;
      assert FirstKind(peers, n, EncrChat);
    } else {
      forall k: PeerType
        ensures PeerId(k, n) !in peers
      {
        assert k == User || k == Chat || k == EncrChat;
      }
    }
  }

  /** A user's buddy name always finds that user. */
  lemma {:induction false} FindsNamedUser(peers: map<PeerId, Peer>, u: int)
    requires PeerId(User, u) in peers
    ensures FindPeerByName(peers, IdName(u)) == Some(peers[PeerId(User, u)])
  {
    AtoiIdName(u);
  }

  /*** update_message_received ***/

  /** The parts of `struct tgl_message` the callback looks at. The flag
      bits FLAG_MESSAGE_EMPTY, FLAG_DELETED, FLAG_CREATED and
      FLAG_SESSION_OUTBOUND are kept as booleans; `to` is None when the
      destination's peer type is 0. */
  datatype Message = Message(
    service: bool, empty: bool, deleted: bool, created: bool, sessionOutbound: bool,
    out: bool, to: Option<PeerType>, photo: bool, hasText: bool)

  /** `our_msg`: the message was sent from this session. */
  predicate OurMsg(m: Message) {
    m.sessionOutbound
  }

  /** `out_msg`: the message was sent by this account, from any device. */
  predicate OutMsg(m: Message) {
    m.out
  }

  /** What update_message_received does with a message. */
  datatype Handling =
    | ServiceNotice    // a service message, formatted; in a chat it goes through chat_add_message
    | Ignored          // empty, deleted, not yet created, or without text, or our own
    | BadMessage       // no destination peer type
    | LoadPhoto        // the photo is fetched first; on_message_load_photo shows it
    | ShowInChat       // chat_add_message: shown with a read receipt if the conversation is open, else kept until it is
    | ShowSecret       // shown as received in the secret chat, read receipt queued
    | ShowSent         // shown as sent from another device
    | ShowReceived     // shown as received from the sender, read receipt queued

  function Handle(m: Message): Handling {
    if m.service then ServiceNotice
    else if m.empty || m.deleted || !m.created then Ignored
    else if m.to.None? then BadMessage
    else if m.photo then LoadPhoto
    else if !m.hasText || OurMsg(m) then Ignored
    else match m.to.value
      case Chat => ShowInChat
      case EncrChat => ShowSecret
      case User => if OutMsg(m) then ShowSent else ShowReceived
  }

  predicate Shown(h: Handling) {
    h.ShowInChat? || h.ShowSecret? || h.ShowReceived? || h.ShowSent?
  }

  /** An ordinary message is shown exactly when it is neither empty nor
      deleted, has been created, has a destination, carries text and no
      photo, and was not sent from this session. */
  lemma {:induction false} ShownIff(m: Message)
    requires !m.service
    ensures Shown(Handle(m)) <==>
      !m.empty && !m.deleted && m.created && m.to.Some? && !m.photo && m.hasText && !OurMsg(m)
  {
    if !m.empty && !m.deleted && m.created && m.to.Some? && !m.photo && m.hasText && !OurMsg(m) {
      assert m.to.value == Chat || m.to.value == EncrChat || m.to.value == User;
    }
  }

  /** Whether update_message_received itself queues a read receipt
      (`pending_reads_add`), given whether the chat's conversation is open
      (`chat_show`): chat_add_message queues one for every message it shows,
      service messages included, and the secret-chat and user branches for
      the messages they show as received. A photo's receipt, if any, comes
      later from on_message_load_photo. */
  function QueuesReceipt(m: Message, chatOpen: bool): bool {
    match Handle(m)
    case ServiceNotice => m.to == Some(Chat) && chatOpen
    case ShowInChat => chatOpen
    case ShowSecret => true
    case ShowReceived => true
    case _ => false
  }

  /** A receipt is queued exactly for a service message in an open chat, and
      for a shown ordinary message that is in an open chat, in a secret chat,
      or from another user to this account. Only the user branch looks at
      the sender: a message this account sent from another device gets a
      receipt in a chat or a secret chat, never in a user conversation. */
  lemma {:induction false} QueuesReceiptIff(m: Message, chatOpen: bool)
    ensures QueuesReceipt(m, chatOpen) <==>
      if m.service then m.to == Some(Chat) && chatOpen
      else !m.empty && !m.deleted && m.created && m.to.Some? && !m.photo && m.hasText && !OurMsg(m)
           && (m.to.value == Chat ==> chatOpen)
           && (m.to.value == User ==> !OutMsg(m))
    ensures QueuesReceipt(m, chatOpen) && OutMsg(m) ==> m.to != Some(User)
  {
    if !m.service && !m.empty && !m.deleted && m.created && m.to.Some? && !m.photo && m.hasText && !OurMsg(m) {
      assert m.to.value == Chat || m.to.value == EncrChat || m.to.value == User;
    }
  }

  /*** update_secret_chat_handler and its callbacks ***/

  /** The update flags the handler tests (TGL_UPDATE_*). */
  datatype ChatFlags = ChatFlags(working: bool, deleted: bool, requested: bool, created: bool)

  /** A libpurple or engine call the handler makes. */
  datatype Effect =
    | WriteSecretFile         // write_secret_chat_file
    | AddBuddy                // p2tgl_buddy_new and purple_blist_add_buddy
    | SetMobile               // p2tgl_prpl_got_set_status_mobile
    | AcceptRequest           // tgl_do_accept_encr_chat_request, write_secret_chat_cb on completion
    | AskUser                 // purple_request_accept_cancel with the accept and decline callbacks
    | SetBuddyData            // purple_buddy_set_protocol_data and p2tgl_buddy_update
    | Terminated              // the "Secret chat terminated." notice and the offline status
    | DeleteChat              // bl_do_encr_chat_delete
    | RemoveBuddy             // purple_blist_remove_buddy
    | Fault                   // `who->name` with no buddy for the requesting user: the process faults

  /** The account setting "accept-secret-chats", with its default "ask". */
  function Choice(setting: Option<string>): string {
    if setting.None? then "ask" else setting.value
  }

  /** The effects of one call of update_secret_chat_handler, in order.
      `buddyKnown` says whether the chat already had a buddy, `userKnown`
      whether the user who asks for it has one; the "ask" branch reads that
      buddy's name without a check, so without one the handler faults
      there. */
  function SecretChatUpdate(f: ChatFlags, buddyKnown: bool, userKnown: bool, setting: Option<string>): seq<Effect> {
    var buddy := buddyKnown || !f.deleted;
    if f.requested && buddy && Choice(setting) == "ask" && !userKnown then UpdateHead(f, buddyKnown) + [Fault]
    else
      UpdateHead(f, buddyKnown)
      + (if f.requested && buddy then RequestAnswer(setting) else [])
      + (if f.created && buddy then [SetBuddyData] else [])
      + (if f.deleted && buddy then [Terminated] else [])
  }

  /** The handler's effects before it looks at the request: the rewrite on
      WORKING or DELETED, and the buddy and status of a chat that stays. */
  function UpdateHead(f: ChatFlags, buddyKnown: bool): seq<Effect> {
    (if f.working || f.deleted then [WriteSecretFile] else [])
    + (if !f.deleted then (if buddyKnown then [] else [AddBuddy]) + [SetMobile] else [])
  }

  /** The answer to a request under the "accept-secret-chats" setting. */
  function RequestAnswer(setting: Option<string>): seq<Effect> {
    if Choice(setting) == "always" then [AcceptRequest]
    else if Choice(setting) == "ask" then [AskUser]
    else []
  }

  /** write_secret_chat_cb, run when the engine completes an accepted
      request. */
  function AcceptCompleted(): seq<Effect> {
    [WriteSecretFile]
  }

  /** accept_secret_chat_cb: the user said yes. */
  function AcceptAnswered(): seq<Effect> {
    [AcceptRequest]
  }

  /** decline_secret_chat_cb: the user said no. */
  function DeclineAnswered(): seq<Effect> {
    [DeleteChat, RemoveBuddy]
  }

  /** The store is rewritten by the handler itself exactly when the update
      carries WORKING or DELETED, and then before anything else. */
  lemma {:induction false} RewriteOnWorkingOrDeleted(f: ChatFlags, buddyKnown: bool, userKnown: bool, setting: Option<string>)
    ensures var es := SecretChatUpdate(f, buddyKnown, userKnown, setting);
      (WriteSecretFile in es <==> f.working || f.deleted)
      && (f.working || f.deleted ==> es[0] == WriteSecretFile)
  {
    var es := SecretChatUpdate(f, buddyKnown, userKnown, setting);
    if !(f.working || f.deleted) {
      assert forall k | 0 <= k < |es| :: es[k] != WriteSecretFile;
    }
  }

  /** The acceptance policy on a request: "always" accepts at once, "ask"
      (also when the setting is absent) asks the user, anything else does
      neither. A request is dropped only when the same update deletes a
      chat that had no buddy, and asking about a user without a buddy
      faults, as the last thing the handler does. */
  lemma {:induction false} AcceptancePolicy(f: ChatFlags, buddyKnown: bool, userKnown: bool, setting: Option<string>)
    ensures var es := SecretChatUpdate(f, buddyKnown, userKnown, setting);
      && (AcceptRequest in es <==> f.requested && (buddyKnown || !f.deleted) && Choice(setting) == "always")
      && (AskUser in es <==> f.requested && (buddyKnown || !f.deleted) && Choice(setting) == "ask" && userKnown)
      && (Fault in es <==> f.requested && (buddyKnown || !f.deleted) && Choice(setting) == "ask" && !userKnown)
      && (Fault in es ==> es[|es| - 1] == Fault)
      && (setting.None? ==> Choice(setting) == "ask")
  {
    var es := SecretChatUpdate(f, buddyKnown, userKnown, setting);
    var head := UpdateHead(f, buddyKnown);
    var buddy := buddyKnown || !f.deleted;
    assert AcceptRequest !in head && AskUser !in head && Fault !in head;
    if f.requested && buddy && Choice(setting) == "ask" && !userKnown {
      assert es == head + [Fault];
    } else {
      var answer := if f.requested && buddy then RequestAnswer(setting) else [];
      var rest := (if f.created && buddy then [SetBuddyData] else [])
        + (if f.deleted && buddy then [Terminated] else []);
      assert es == head + answer + rest;
      assert AcceptRequest !in rest && AskUser !in rest && Fault !in rest;
      assert Fault !in answer;
    }
  }

  /** The secret-chat store after a run of effects, the engine's peers being
      `peers` while they run: each WriteSecretFile overwrites it with what
      write_secret_chat_file writes, and no other effect touches it. */
  function StoreAfter(store: seq<byte>, peers: seq<Peer>, es: seq<Effect>): seq<byte>
    requires |peers| < 0x8000_0000
    decreases |es|
  {
    if es == [] then store
    else
      var store' := if es[0] == WriteSecretFile then Overlay(store, SecretFile.SecretFileBytes(peers)) else store;
      StoreAfter(store', peers, es[1..])
  }

  /** Once the engine has completed an accepted request, the chat at index
      `i` is in state sc_ok, and the rewrite of write_secret_chat_cb stores
      it: reading the store back loads that chat with all its fields and
      changes nothing but the chat table. Neither answer rewrites the store
      by itself. */
  lemma {:induction false} AcceptedChatsSaved(store: seq<byte>, peers: seq<Peer>, i: nat, c: SecretChat,
                                              st: EngineState, sha1: AuthKey -> Digest)
    requires i < |peers| && peers[i].EncrChatPeer? && c.id == peers[i].secret.id && c.state == SC_OK
    requires |peers| < 0x8000_0000 && SecretFile.DistinctPeers(peers)
    requires SecretFile.AllStorable(SecretFile.OkChats(peers[i := EncrChatPeer(c)]))
    ensures var r := SecretFile.SecretEvents(Some(StoreAfter(store, peers[i := EncrChatPeer(c)], AcceptCompleted())), sha1);
      && r.Done?
      && var st' := ApplyAll(st, r.events);
      && c.id in st'.chats && st'.chats[c.id] == c && st' == st.(chats := st'.chats)
    ensures StoreAfter(store, peers, AcceptAnswered()) == store
    ensures StoreAfter(store, peers, DeclineAnswered()) == store
  {
    var after := peers[i := EncrChatPeer(c)];
    forall a, b | 0 <= a < b < |after| ensures after[a].Id() != after[b].Id() {
      assert after[a].Id() == peers[a].Id() && after[b].Id() == peers[b].Id();
    }
    assert StoreAfter(store, after, AcceptCompleted()) == Overlay(store, SecretFile.SecretFileBytes(after));
    SecretFile.SecretFileRestores(store, after, st, sha1);
    assert SecretFile.Saved(after[i]);
    assert StoreAfter(store, peers, DeclineAnswered()[1..]) == store;
  }

  /*** tgprpl_send_im ***/

  /** The outcome of tgprpl_send_im. */
  datatype SendDecision =
    | TakeCode           // the text is the verification code; returns 1
    | Unknown            // no such peer; returns -1
    | NotReady           // a secret chat not in state sc_ok; returns -1
    | Send(to: PeerId)   // the message is sent; returns 1

  function SendImDecision(inFallbackChat: bool, peers: map<PeerId, Peer>, who: seq<byte>): SendDecision {
    if inFallbackChat then TakeCode
    else match FindPeerByName(peers, who)
      case None => Unknown
      case Some(p) =>
        if p.EncrChatPeer? && p.secret.state != SC_OK then NotReady else Send(p.Id())
  }

  /** The value tgprpl_send_im returns. */
  function SendImResult(d: SendDecision): int {
    if d.TakeCode? || d.Send? then 1 else -1
  }

  /** A message leaves only outside the code prompt, to a peer the name
      finds, and never to a secret chat that is not ready; it returns 1
      exactly when the text was taken as a code or sent. */
  lemma {:induction false} SendImGating(inFallbackChat: bool, peers: map<PeerId, Peer>, who: seq<byte>)
    ensures var d := SendImDecision(inFallbackChat, peers, who);
      && (d.Send? <==> !inFallbackChat && FindPeerByName(peers, who).Some?
                       && !(FindPeerByName(peers, who).value.EncrChatPeer?
                            && FindPeerByName(peers, who).value.secret.state != SC_OK))
      && (d.Send? ==> d.to == FindPeerByName(peers, who).value.Id())
      && (d.Unknown? <==> !inFallbackChat && forall k: PeerType :: PeerId(k, Atoi(who)) !in peers)
      && (SendImResult(d) == 1 <==> d.TakeCode? || d.Send?)
  {
    FindPeerFirstKind(peers, who);
  }

  /*** format_status ***/

  function FormatStatus(online: bool): (r: string)
    ensures r == "Online" <==> online
    ensures r == "Online" || r == "Mobile"
  {
    if online then "Online" else "Mobile"
  }
}
