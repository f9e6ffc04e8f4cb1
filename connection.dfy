/** `connection_data`: the per-account state the plugin keeps beside the
    engine. Its dirty flag decides when the update cursor is flushed to the
    state store, its fallback flag routes the next outgoing text to the code
    prompt, and its set of joining chats keeps chat_show from asking for the
    same chat twice. */
module Connection {
  import opened Bytes
  import opened Engine
  import StateFile
  import Dispatch

  /** The cursor a freshly initialised engine holds after reading `file` as
      the state store: the stored one, or the initial one when the reader
      refuses the file. */
  function StoredCursor(file: seq<byte>): Cursor {
    ApplyAll(Initial, StateFile.StateEvents(Some(file))).cursor
  }

  /** A request the plugin hands to the engine. */
  datatype Request =
    | SendMessage(to: PeerId, text: string)   // tgl_do_send_unescape_message
    | CodeEntered(code: string)               // request_code_entered
    | GetChatInfo(chat: int)                  // tgl_do_get_chat_info

  class Connection {
    /** conn->updated: the cursor moved since the state store was last written. */
    var updated: bool
    /** conn->in_fallback_chat: the next outgoing text is the login code. */
    var inFallbackChat: bool
    /** conn->joining_chats, by chat number ("%d" of the number is the key). */
    var joiningChats: set<int>
    /** The engine's update cursor, TLS->pts, qts, seq and date. */
    var cursor: Cursor
    /** The engine's peer tree. */
    var peers: map<PeerId, Peer>
    /** The contents of the state store on disk. */
    var stateFile: seq<byte>
    /** The engine requests made so far, oldest first. */
    var outbox: seq<Request>

    /** Unless the cursor moved since, the state store holds the cursor:
        reading it back restores exactly the engine's cursor. */
    predicate Saved()
      reads this
    {
      updated || StoredCursor(stateFile) == cursor
    }

    /** Every chat being joined has its chat-info request on the way. */
    predicate Joining()
      reads this
    {
      forall c | c in joiningChats :: GetChatInfo(c) in outbox
    }

    predicate Valid()
      reads this
    {
      Saved() && Joining()
    }

    /** The connection as on_ready finds it: tgprpl_login created it and
        telegram_login has read the state store `file` into the engine, so
        the cursor is the one that store gives back. `dirty` is the flag's
        value at that point. */
    constructor (file: seq<byte>, peers: map<PeerId, Peer>, dirty: bool)
      ensures this.stateFile == file && this.peers == peers && cursor == StoredCursor(file)
      ensures updated == dirty && !inFallbackChat && joiningChats == {} && outbox == []
      ensures Valid()
    {
      updated := dirty;
      inFallbackChat := false;
      joiningChats := {};
      cursor := StoredCursor(file);
      this.peers := peers;
      stateFile := file;
      outbox := [];
    }

    /** queries_timerfunc: writes the state store only when the cursor moved,
        clears the flag, and asks to be called again. */
    method QueriesTimerfunc() returns (again: bool)
      modifies this`updated, this`stateFile
      requires Valid()
      ensures again && !updated && Valid() && StoredCursor(stateFile) == cursor
      ensures stateFile == if old(updated) then Overlay(old(stateFile), StateFile.EncodeState(cursor)) else old(stateFile)
    {
      if updated {
        updated := false;
        stateFile := StateFile.WriteStateFile(stateFile, cursor);
        StateFile.StateRoundTrip(old(stateFile), cursor, Initial);
      }
      again := true;
    }

    /** update_message_received, after the engine has moved its cursor to
        `moved`: the flag is set whatever the message, and the message is
        handled as Dispatch.Handle decides. */
    method UpdateMessageReceived(m: Dispatch.Message, moved: Cursor) returns (h: Dispatch.Handling)
      modifies this`updated, this`cursor
      requires Valid()
      ensures updated && cursor == moved && Valid()
      ensures h == Dispatch.Handle(m)
    {
      cursor := moved;
      updated := true;
      h := Dispatch.Handle(m);
    }

    /** request_code's fallback: with no request dialog, the code is asked
        for in a conversation. */
    method RequestCodeInChat()
      modifies this`inFallbackChat
      requires Valid()
      ensures inFallbackChat && Valid()
    {
      inFallbackChat := true;
    }

    /** tgprpl_send_im. */
    method SendIm(who: seq<byte>, message: string) returns (r: int)
      modifies this`inFallbackChat, this`outbox
      requires Valid()
      ensures Valid()
      ensures var d := Dispatch.SendImDecision(old(inFallbackChat), peers, who);
        && r == Dispatch.SendImResult(d)
        && !inFallbackChat
        && outbox == old(outbox) + match d
             case TakeCode => [CodeEntered(message)]
             case Send(to) => [SendMessage(to, message)]
             case _ => []
    {
      if inFallbackChat {
        outbox := outbox + [CodeEntered(message)];
        inFallbackChat := false;
        return 1;
      }
      var peer := Dispatch.FindPeerByName(peers, who);
      if peer.Some? {
        if peer.value.EncrChatPeer? && peer.value.secret.state != SC_OK {
          return -1;
        }
        outbox := outbox + [SendMessage(peer.value.Id(), message)];
        return 1;
      }
      return -1;
    }

    /** chat_show: with no open conversation, asks for the chat's info
        unless it is already being joined. Returns whether a conversation
        is open. */
    method ChatShow(id: int, open: bool) returns (shown: bool)
      modifies this`joiningChats, this`outbox
      requires Valid()
      ensures shown == open && Valid()
      ensures if !open && id !in old(joiningChats)
        then joiningChats == old(joiningChats) + {id} && outbox == old(outbox) + [GetChatInfo(id)]
        else joiningChats == old(joiningChats) && outbox == old(outbox)
    {
      if !open {
        if id !in joiningChats {
          joiningChats := joiningChats + {id};
          outbox := outbox + [GetChatInfo(id)];
        }
      }
      shown := open;
    }

    /** on_chat_get_info, when the chat-info request for chat `id` has
        completed: a failed request aborts the process (`assert (success)`),
        changing nothing; otherwise the chat is no longer being joined. */
    method OnChatGetInfo(id: int, success: bool) returns (aborted: bool)
      modifies this`joiningChats
      requires Valid()
      ensures aborted == !success && Valid()
      ensures joiningChats == if success then old(joiningChats) - {id} else old(joiningChats)
    {
      if !success {
        return true;
      }
      joiningChats := joiningChats - {id};
      aborted := false;
    }
  }

  /** Two timer ticks with no update between them: the second writes
      nothing, and the store then holds the cursor. */
  method TimerTwice(c: Connection)
    modifies c
    requires c.Valid()
    ensures !c.updated && c.Valid()
    ensures c.stateFile == if old(c.updated) then Overlay(old(c.stateFile), StateFile.EncodeState(c.cursor)) else old(c.stateFile)
  {
    var _ := c.QueriesTimerfunc();
    var written := c.stateFile;
    var _ := c.QueriesTimerfunc();
    assert c.stateFile == written;
  }

  /** A chat shown twice before its info arrives is asked for once. */
  method ShowTwice(c: Connection, id: int)
    modifies c
    requires c.Valid() && id !in c.joiningChats
    ensures c.outbox == old(c.outbox) + [GetChatInfo(id)]
  {
    var _ := c.ChatShow(id, false);
    var _ := c.ChatShow(id, false);
  }

  /** The first tick of the timer on_ready starts does not change what the
      state store gives back, whatever the flag: it writes, if at all, the
      cursor telegram_login read from that store. */
  method FirstTick(file: seq<byte>, peers: map<PeerId, Peer>, dirty: bool) returns (c: Connection)
    ensures StoredCursor(c.stateFile) == StoredCursor(file) == c.cursor
    ensures c.stateFile == if dirty then Overlay(file, StateFile.EncodeState(StoredCursor(file))) else file
    ensures !c.updated && c.Valid()
  {
    c := new Connection(file, peers, dirty);
    var _ := c.QueriesTimerfunc();
  }
}
