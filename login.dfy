/** The login sequence of telegram-base.c: loading the three stores, waiting
    until every DC has an authorization key, the phone-number and code
    dialogue, and exporting the authorization to every DC before the
    connection is declared ready. tgl's asynchronous calls and libpurple's
    dialogs are replaced by the `Step` the plugin asks for next. */
module Login {
  import opened Bytes
  import opened Engine
  import AuthFile
  import StateFile
  import SecretFile

  /** What the plugin asks of tgl or libpurple next. */
  datatype Step =
    | ExportAuth(dc: int)     // tgl_do_export_auth to DC `dc`
    | SaveAndReady            // write_auth_file, then on_ready
    | SendCode                // tgl_do_send_code with the account's phone number
    | RequestCode             // request_code: ask for the SMS code
    | RequestNameAndCode      // request_name_and_code: registration form
    | SignInFailed            // "Invalid or non-existing phone number."
    | PollAuthorized          // purple_timeout_add (100, check_all_authorized)

  /*** all_authorized ***/

  /** Every DC from 0 to max_dc_num in the table has an authorization key. */
  predicate EveryDcAuthorized(st: EngineState) {
    forall k | 0 <= k <= st.maxDcNum && k in st.dcs :: st.dcs[k].authKey.Some?
  }

  /** all_authorized: the loop over DC_list[0..max_dc_num]. */
  method AllAuthorized(st: EngineState) returns (r: bool)
    ensures r <==> EveryDcAuthorized(st)
  {
    var i := 0;
    while i <= st.maxDcNum
      invariant 0 <= i
      invariant forall k | 0 <= k < i && k in st.dcs :: st.dcs[k].authKey.Some?
      decreases st.maxDcNum + 1 - i
    {
      if i in st.dcs && st.dcs[i].authKey.None? {
        return false;
      }
      i := i + 1;
    }
    r := true;
  }

  /** check_all_authorized, run by the 100 ms timer: once every DC is
      authorized it goes on with telegram_send_sms and stops the timer
      (`keepPolling` is the timer callback's return value). */
  method CheckAllAuthorized(st: EngineState) returns (next: Step, keepPolling: bool)
    ensures keepPolling <==> !EveryDcAuthorized(st)
    ensures next == if EveryDcAuthorized(st) then SendSmsStep(st) else PollAuthorized
  {
    var ok := AllAuthorized(st);
    if ok {
      next := TelegramSendSms(st);
      keepPolling := false;
    } else {
      next, keepPolling := PollAuthorized, true;
    }
  }

  /*** telegram_export_authorization ***/

  /** The lowest DC number from `i` up to max_dc_num whose DC is in the
      table and not signed. */
  function FirstUnsigned(st: EngineState, i: nat): Option<int>
    decreases st.maxDcNum + 1 - i
  {
    if i > st.maxDcNum then None
    else if i in st.dcs && !st.dcs[i].signed then Some(i)
    else FirstUnsigned(st, i + 1)
  }

  /** A present DC that still needs its authorization exported. */
  predicate Unsigned(st: EngineState, k: int) {
    k in st.dcs && !st.dcs[k].signed
  }

  lemma {:induction false} FirstUnsignedLowest(st: EngineState, i: nat)
    ensures match FirstUnsigned(st, i)
      case Some(k) => i <= k <= st.maxDcNum && Unsigned(st, k) && forall j | i <= j < k :: !Unsigned(st, j)
      case None => forall j | i <= j <= st.maxDcNum :: !Unsigned(st, j)
    decreases st.maxDcNum + 1 - i
  {
    if i <= st.maxDcNum && !Unsigned(st, i) {
      FirstUnsignedLowest(st, i + 1);
    }
  }

  /** What telegram_export_authorization does: export to the lowest-numbered
      DC not yet signed, or, when every DC is signed, save the auth file and
      declare the connection ready. */
  function ExportStep(st: EngineState): Step {
    match FirstUnsigned(st, 0)
    case Some(k) => ExportAuth(k)
    case None => SaveAndReady
  }

  /** telegram_export_authorization: the loop over DC_list[0..max_dc_num]
      that stops at the first DC not signed. */
  method TelegramExportAuthorization(st: EngineState) returns (s: Step)
    ensures s == ExportStep(st)
  {
    var i := 0;
    while i <= st.maxDcNum
      invariant 0 <= i
      invariant FirstUnsigned(st, i) == FirstUnsigned(st, 0)
      decreases st.maxDcNum + 1 - i
    {
      if i in st.dcs && !st.dcs[i].signed {
        return ExportAuth(i);
      }
      i := i + 1;
    }
    s := SaveAndReady;
  }

  /** The export goes to the lowest DC not signed; saving happens only when
      every DC is signed. */
  lemma {:induction false} ExportStepIff(st: EngineState)
    ensures ExportStep(st) == SaveAndReady <==> forall j | 0 <= j <= st.maxDcNum :: !Unsigned(st, j)
    ensures ExportStep(st).ExportAuth? ==>
      var k := ExportStep(st).dc;
      0 <= k <= st.maxDcNum && Unsigned(st, k) && forall j | 0 <= j < k :: !Unsigned(st, j)
  {
    FirstUnsignedLowest(st, 0);
  }

  /** When the export loop decides to save, write_auth_file cannot abort:
      the loop has just found every present DC from 0 to max_dc_num signed,
      which is what write_dc asserts of each. */
  lemma {:induction false} ExportSaves(st: EngineState)
    requires ExportStep(st) == SaveAndReady
    ensures !AuthFile.AuthFileWrites(st).crashed
  {
    ExportStepIff(st);
    AuthFile.AuthFileCrashIff(st);
    if AuthFile.AuthFileWrites(st).crashed {
      var k :| 0 <= k <= st.maxDcNum && k in st.dcs && !st.dcs[k].signed;
      assert Unsigned(st, k);
    }
  }

  lemma {:induction false} SkipSigned(st: EngineState, i: nat, k: nat)
    requires i <= k && forall j | i <= j < k :: !Unsigned(st, j)
    ensures FirstUnsigned(st, i) == FirstUnsigned(st, k)
    decreases k - i
  {
    if i < k && i <= st.maxDcNum {
      assert !Unsigned(st, i);
      SkipSigned(st, i + 1, k);
    }
  }

  lemma {:induction false} SameAbove(st: EngineState, st': EngineState, i: nat)
    requires st'.maxDcNum == st.maxDcNum
    requires forall j | i <= j :: Unsigned(st', j) == Unsigned(st, j)
    ensures FirstUnsigned(st', i) == FirstUnsigned(st, i)
    decreases st.maxDcNum + 1 - i
  {
    if i <= st.maxDcNum {
      assert Unsigned(st', i) == Unsigned(st, i);
      SameAbove(st, st', i + 1);
    }
  }

  /** export_auth_callback: when the export to DC `k` succeeds, tgl marks
      it signed (bl_do_dc_signed) and the next round exports to a higher DC
      or saves, so the chain of exports ends after at most max_dc_num + 1
      rounds. */
  lemma {:induction false} ExportAdvances(st: EngineState, k: int32)
    requires ExportStep(st) == ExportAuth(k)
    ensures var next := ExportStep(Apply(st, DcSigned(k)));
      next == SaveAndReady || (next.ExportAuth? && next.dc > k)
  {
    ExportStepIff(st);
    var st' := Apply(st, DcSigned(k));
    forall j | 0 <= j < k + 1 ensures !Unsigned(st', j) {
      if j < k {
        assert !Unsigned(st, j);
      }
    }
    SkipSigned(st', 0, k + 1);
    SameAbove(st, st', k + 1);
    FirstUnsignedLowest(st, k + 1);
  }

  /*** The phone-number and code dialogue ***/

  /** telegram_send_sms: with the working DC signed, go straight to the
      exports; otherwise ask tgl to send a code to the phone number. */
  function SendSmsStep(st: EngineState): Step {
    if st.workingDc in st.dcs && st.dcs[st.workingDc].signed then ExportStep(st) else SendCode
  }

  method TelegramSendSms(st: EngineState) returns (s: Step)
    ensures s == SendSmsStep(st)
  {
    if st.workingDc in st.dcs && st.dcs[st.workingDc].signed {
      s := TelegramExportAuthorization(st);
      return;
    }
    s := SendCode;
  }

  /** A code is requested exactly when the working DC is not signed; a
      signed working DC goes to the lowest DC still to be signed, or saves
      and declares the connection ready when there is none. */
  lemma {:induction false} SendSmsIff(st: EngineState)
    ensures SendSmsStep(st) == SendCode <==> !(st.workingDc in st.dcs && st.dcs[st.workingDc].signed)
    ensures SendSmsStep(st) == SaveAndReady
        <==> st.workingDc in st.dcs && st.dcs[st.workingDc].signed
             && forall j | 0 <= j <= st.maxDcNum :: !Unsigned(st, j)
    ensures SendSmsStep(st).ExportAuth? ==>
      var k := SendSmsStep(st).dc;
      st.workingDc in st.dcs && st.dcs[st.workingDc].signed
      && 0 <= k <= st.maxDcNum && Unsigned(st, k) && forall j | 0 <= j < k :: !Unsigned(st, j)
  {
    ExportStepIff(st);
  }

  /** sign_in_callback: a phone number tgl rejects is an error; a registered
      one is asked for the code, a new one for name and code. */
  function SignInStep(success: bool, registered: bool): (r: Step)
    ensures r == SignInFailed <==> !success
    ensures success ==> r == CodeForm(registered) && (r == RequestCode <==> registered)
  {
    if !success then SignInFailed else if registered then RequestCode else RequestNameAndCode
  }

  /** The form the dialogue shows for a number tgl accepted: the code alone
      for a registered number, the registration form otherwise. */
  function CodeForm(registered: bool): Step {
    if registered then RequestCode else RequestNameAndCode
  }

  /** code_receive_result: a wrong code asks for the code again; a right one
      starts the exports. */
  function CodeStep(st: EngineState, success: bool): Step {
    if !success then RequestCode else ExportStep(st)
  }

  /** code_auth_receive_result, after the registration form. */
  function CodeAuthStep(st: EngineState, success: bool): Step {
    if !success then RequestNameAndCode else ExportStep(st)
  }

  /** The callback of the code check the form sends: code_receive_result
      after request_code, code_auth_receive_result after the registration
      form. */
  function CodeReply(st: EngineState, registered: bool, success: bool): Step {
    if registered then CodeStep(st, success) else CodeAuthStep(st, success)
  }

  /** The replies to successive code checks, up to the first right code. */
  function CodeReplies(st: EngineState, registered: bool, results: seq<bool>): (r: seq<Step>)
    ensures |r| <= |results|
    decreases |results|
  {
    if results == [] then []
    else if !results[0] then [CodeReply(st, registered, false)] + CodeReplies(st, registered, results[1..])
    else [CodeReply(st, registered, true)]
  }

  /** For any sequence of code checks, every reply but the last shows the
      same form again; the last one starts the exports exactly when some
      code was right; and without a right code every reply is the form. */
  lemma {:induction false} CodeRepliesShape(st: EngineState, registered: bool, results: seq<bool>)
    ensures var r := CodeReplies(st, registered, results);
      && (forall i | 0 <= i < |r| - 1 :: r[i] == CodeForm(registered))
      && (true in results <==> |r| > 0 && r[|r| - 1] == ExportStep(st))
      && (true !in results ==> r == seq(|results|, _ => CodeForm(registered)))
    decreases |results|
  {
    ExportStepIff(st);
    if results != [] && !results[0] {
      var rest := CodeReplies(st, registered, results[1..]);
      CodeRepliesShape(st, registered, results[1..]);
      assert results == [false] + results[1..];
      assert true in results <==> true in results[1..];
      if true !in results {
        assert seq(|results|, _ => CodeForm(registered)) == [CodeForm(registered)] + seq(|results| - 1, _ => CodeForm(registered));
      }
    }
  }

  /** There is no limit on attempts: after any number `n` of wrong codes the
      same form is shown again each time, and the first right one starts the
      exports. */
  lemma {:induction false} NoAttemptLimit(st: EngineState, registered: bool, n: nat)
    ensures CodeReplies(st, registered, seq(n, _ => false) + [true])
         == seq(n, _ => CodeForm(registered)) + [ExportStep(st)]
    decreases n
  {
    var results := seq(n, _ => false) + [true];
    if n == 0 {
      assert results == [true];
    } else {
      NoAttemptLimit(st, registered, n - 1);
      assert results[0] == false;
      assert results[1..] == seq(n - 1, _ => false) + [true];
      assert seq(n, _ => CodeForm(registered)) == [CodeForm(registered)] + seq(n - 1, _ => CodeForm(registered));
    }
  }

  /** The dialogue after tgl_do_send_code: sign_in_callback's step, then,
      once the number is accepted, the replies to the codes entered. */
  function Dialogue(st: EngineState, success: bool, registered: bool, results: seq<bool>): seq<Step> {
    [SignInStep(success, registered)] + if success then CodeReplies(st, registered, results) else []
  }

  /** A rejected number ends the dialogue with the error. An accepted one
      shows the form its registration calls for, and shows that same form
      again after each wrong code: the exports start exactly when some code
      is right, and never before the last step. */
  lemma {:induction false} SignInDialogue(st: EngineState, success: bool, registered: bool, results: seq<bool>)
    ensures var d := Dialogue(st, success, registered, results);
      && (!success ==> d == [SignInFailed])
      && (success ==>
            && d[0] == CodeForm(registered)
            && (forall i | 0 <= i < |d| - 1 :: d[i] == CodeForm(registered))
            && (true in results <==> d[|d| - 1] == ExportStep(st)))
  {
    if success {
      var d := Dialogue(st, success, registered, results);
      var r := CodeReplies(st, registered, results);
      CodeRepliesShape(st, registered, results);
      ExportStepIff(st);
      assert d == [CodeForm(registered)] + r;
      forall i | 0 <= i < |d| - 1 ensures d[i] == CodeForm(registered) {
        if i > 0 {
          assert d[i] == r[i - 1];
        }
      }
    }
  }

  /*** telegram_login ***/

  /** How telegram_login ends: an assertion in a store reader aborted the
      process, or the engine holds the loaded state and the plugin goes on
      with `next`. */
  datatype Login = Crashed | Started(st: EngineState, next: Step)

  /** telegram_login: read the auth file, then the state file, then the
      secret-chat file (None: the file could not be opened); then go on with
      telegram_send_sms if every DC is authorized, else poll until they are. */
  function LoginOutcome(st: EngineState, auth: Option<seq<byte>>, state: Option<seq<byte>>,
                        secret: Option<seq<byte>>, cfg: AuthFile.Config, sha1: AuthKey -> Digest): Login
    requires AuthFile.ValidConfig(cfg)
  {
    match AuthFile.AuthEvents(auth, cfg)
    case Abort => Crashed
    case Done(a) =>
      var st1 := ApplyAll(ApplyAll(st, a), StateFile.StateEvents(state));
      match SecretFile.SecretEvents(secret, sha1)
      case Abort => Crashed
      case Done(c) =>
        var st2 := ApplyAll(st1, c);
        Started(st2, if EveryDcAuthorized(st2) then SendSmsStep(st2) else PollAuthorized)
  }

  method TelegramLogin(st: EngineState, auth: Option<seq<byte>>, state: Option<seq<byte>>,
                       secret: Option<seq<byte>>, cfg: AuthFile.Config, sha1: AuthKey -> Digest) returns (r: Login)
    requires AuthFile.ValidConfig(cfg)
    ensures r == LoginOutcome(st, auth, state, secret, cfg, sha1)
  {
    var a := AuthFile.ReadAuthFile(auth, cfg);
    if a.Abort? {
      return Crashed;
    }
    var st1 := ApplyAll(st, a.events);
    var s := StateFile.ReadStateFile(state);
    st1 := ApplyAll(st1, s);
    var c := SecretFile.ReadSecretChatFile(secret, sha1);
    if c.Abort? {
      return Crashed;
    }
    var st2 := ApplyAll(st1, c.events);
    var ok := AllAuthorized(st2);
    if ok {
      var next := TelegramSendSms(st2);
      return Started(st2, next);
    }
    r := Started(st2, PollAuthorized);
  }

  /*** A restart on saved stores ***/

  /** The engine a session leaves behind that its stores can restore. */
  predicate Saveable(st: EngineState, peers: seq<Peer>) {
    && AuthFile.Restorable(st) && st.workingDc in st.dcs && 0 <= st.workingDc <= st.maxDcNum
    && |peers| < 0x8000_0000 && SecretFile.AllStorable(SecretFile.OkChats(peers)) && SecretFile.DistinctPeers(peers)
  }

  /** What the restarted engine holds: the DCs numbered 0 to max_dc_num,
      restored and signed, the same working DC, user id and cursor, and
      every encrypted chat that was in state sc_ok. */
  ghost predicate RestoredFrom(st': EngineState, st: EngineState, peers: seq<Peer>) {
    && (forall k :: k in st'.dcs <==> k in st.dcs && 0 <= k <= st.maxDcNum)
    && (forall k | k in st.dcs && 0 <= k <= st.maxDcNum :: st'.dcs[k] == AuthFile.Restored(st.dcs[k]))
    && st'.workingDc == st.workingDc && st'.ourId == st.ourId && st'.cursor == st.cursor
    && (forall i | 0 <= i < |peers| && SecretFile.Saved(peers[i]) ::
          peers[i].secret.id in st'.chats && st'.chats[peers[i].secret.id] == peers[i].secret)
  }

  /** A restart on the three files a session saved (over whatever older
      files they overwrite) restores the session, and since every restored
      DC is authorized and signed, login asks for no code: it goes straight
      to saving the auth file and on_ready. */
  lemma {:induction false} SessionRestores(pa: seq<byte>, ps: seq<byte>, pc: seq<byte>, st: EngineState, peers: seq<Peer>,
                                           cfg: AuthFile.Config, sha1: AuthKey -> Digest)
    requires AuthFile.ValidConfig(cfg) && Saveable(st, peers)
    ensures var r := LoginOutcome(Initial, Some(Overlay(pa, AuthFile.AuthFileWrites(st).bytes)),
                                  Some(Overlay(ps, StateFile.EncodeState(st.cursor))),
                                  Some(Overlay(pc, SecretFile.SecretFileBytes(peers))), cfg, sha1);
      r.Started? && RestoredFrom(r.st, st, peers) && r.next == SaveAndReady
  {
    var auth := Overlay(pa, AuthFile.AuthFileWrites(st).bytes);
    var state := Overlay(ps, StateFile.EncodeState(st.cursor));
    var secret := Overlay(pc, SecretFile.SecretFileBytes(peers));
    AuthFile.AuthFileRestores(pa, st, cfg);
    var st1 := ApplyAll(Initial, AuthFile.AuthEvents(Some(auth), cfg).events);
    StateFile.StateRoundTrip(ps, st.cursor, st1);
    StateFile.CursorRestored(st1, st.cursor);
    var st2 := st1.(cursor := st.cursor);
    SecretFile.SecretFileRoundTrip(pc, peers, sha1);
    SecretFile.LoadedChatsRestore(peers, st2, sha1);
    var st3 := ApplyAll(st2, SecretFile.LoadedChats(SecretFile.OkChats(peers), sha1));
    RestoredReady(st3, st, peers);
  }

  /** A restored engine passes all_authorized, and its working DC and every
      other DC are signed. */
  lemma {:induction false} RestoredReady(st': EngineState, st: EngineState, peers: seq<Peer>)
    requires Saveable(st, peers) && RestoredFrom(st', st, peers)
    ensures EveryDcAuthorized(st') && SendSmsStep(st') == SaveAndReady
  {
    ExportStepIff(st');
  }
}
