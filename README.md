# telegram-purple: local stores, login progression and event decisions

A model of the libpurple Telegram plugin's persistence layer and of the
small decisions around it. The plugin keeps three binary stores next to
the account:

- the update cursor (`state`), a fixed 24-byte file;
- the DC table (`auth`), one slot per DC number plus the user's own id;
- the secret chats (`secret`), a versioned list of records, one per
  encrypted chat in state `sc_ok`.

On login it reads them back in a fixed order, exports its authorization to
every DC that still needs it, saves the DC table and declares the
connection ready.

Around the stores it makes small decisions:

- the print name given to a peer;
- when the cursor is flushed;
- which messages are shown;
- how secret-chat requests are answered;
- when a text may be sent.

It also paints the identicon of a secret chat's key.

The modules:

- `Bytes` holds the fixed-width integer types and the little-endian codec
  of C `int`, `unsigned` and `long long` as `write(fd, &x, n)` stores them.
  It also holds `Overlay`: a file opened without `O_TRUNC`, where a write
  replaces a prefix and older trailing bytes survive.
- `Engine` is the protocol engine as the stores see it. The readers emit
  the sequence of `bl_do_*` calls (`Event`), and `Apply`/`ApplyAll` give
  their effect on an `EngineState`. This covers the cursor, the DC table,
  the working DC, our id and the secret chats. `Turns` is the left fold
  that specifies every reader loop.
- `StateFile`, `AuthFile` and `SecretFile` each hold a writer and a reader,
  as methods. Both are proved against specification functions, and lemmas
  state the round trips, the restored engine state, the defaults and the
  fatal checks.
- `Login` covers `all_authorized`, `telegram_send_sms`,
  `telegram_export_authorization`, the code callbacks and `telegram_login`.
  It includes the restart lemma: a restart on the three stores restores the
  session and goes straight to `on_ready`.
- `IdentIcon` covers `generate_ident_icon` up to the filled RGBA buffer, as
  an `array<byte>` painted by nested loops.
- `PrintName` covers `format_print_name` on the name's bytes: the join,
  the in-place sanitising, and the `" #n"` de-duplication.
- `Dispatch` holds the pure decisions: `atoi` and `find_peer_by_name`, the
  message filter of `update_message_received`,
  `update_secret_chat_handler` with its callbacks, the gating of
  `tgprpl_send_im`, and `format_status`.
- `Connection` is `connection_data`. It is a class whose fields are the
  dirty flag, the fallback-chat flag, the joining chats, the cursor, the
  state store's bytes and the requests sent to the engine.

SHA-1 is a function parameter `sha1: AuthKey -> Digest`. The built-in
server addresses are a `Config` parameter.

write_dc writes the presence flag 1 before `assert (DC->has_auth)`
(telegram-base.c:116-120), so an abort leaves a flag with no record behind.
`has_auth` is the DC's signed flag, the one `bl_do_dc_signed` sets and
`tgl_signed_dc` reports: `AuthFile.WriteDc` appends the flag and reports
the abort for a DC that is not signed. telegram_export_authorization only
saves once every present DC is signed, so that save never aborts
(`Login.ExportSaves`).

## Model

| member | source | states |
|---|---|---|
| Bytes.U32RoundTrip | telegram-base.c:207-209 | an `unsigned` stored as 4 little-endian bytes reads back as the same value |
| Bytes.I32RoundTrip | telegram-base.c:151-153 | an `int` stored as 4 bytes reads back as the same value, for every 32-bit value including negatives |
| Bytes.I64RoundTrip | telegram-base.c:159-161 | a `long long` stored as 8 bytes reads back as the same value |
| Bytes.ReadI32Bytes | telegram-base.c:300-302 | a 4-byte read after an `int` write gets that value and leaves exactly the following bytes unread |
| Bytes.ReadBytesOf | telegram-base.c:156 | reading `l` bytes after a write of `l` bytes gets them back and leaves the rest |
| Bytes.CStr | telegram-base.c:251 | `strlen`: the result is the prefix before the first NUL, holds no NUL, and is followed by a NUL when shorter than the buffer |
| Bytes.Overlay | telegram-base.c:92-105 | a write to a file opened without `O_TRUNC` replaces the written prefix and keeps the older bytes beyond it |
| Bytes.WriteAtOverlay | telegram-base.c:138-145 | consecutive writes from offset 0 leave the overlay of everything written so far |
| Bytes.PatchOverlay | telegram-base.c:289-290 | seeking back into written bytes and overwriting some equals overlaying the patched write sequence |
| StateFile.EncodeState | telegram-base.c:98-105 | the state store is exactly 24 bytes |
| StateFile.EncodedWords | telegram-base.c:98-104 | the words are magic `0x28949a93`, version 0, pts, qts, seq and date, in that order |
| StateFile.WriteStateFile | telegram-base.c:80-107 | the writer lays magic, version 0 and the counters over the old file, and the reader then makes exactly the four calls for that cursor |
| StateFile.ReadStateFile | telegram-base.c:48-78 | the reader makes the four cursor calls exactly when the file has 24 bytes, the magic and a non-negative version, and none otherwise |
| StateFile.StateRoundTrip | telegram-base.c:48-107 | writing a cursor over any older file and reading it back restores exactly that cursor |
| StateFile.CursorRestored | telegram-base.c:74-77 | the four calls set the cursor and change nothing else in the engine |
| StateFile.StateRejected | telegram-base.c:61-63 | a short file, another magic or a negative version leaves the engine unchanged |
| AuthFile.DcSlots | telegram-base.c:143 | the writer visits DC numbers 0 to max_dc_num in order, one slot each, present exactly when the DC is in the table |
| AuthFile.SlotsWrittenCrashIff | telegram-base.c:111-120 | the slot writer aborts exactly when some present DC is not signed (`has_auth` unset) |
| AuthFile.AuthFileCrashIff | telegram-base.c:130-147 | write_auth_file aborts part-way exactly when a DC numbered 0 to max_dc_num is not signed |
| AuthFile.WriteDc | telegram-base.c:109-128 | write_dc appends flag 0 for an empty slot, flag 1 and the DC's fields for a signed DC, and aborts after the flag for one that is not signed |
| AuthFile.WriteDcFields | telegram-base.c:122-127 | the fields are port, address length, address, 8-byte key id and 256-byte key |
| AuthFile.WriteSlots | telegram-base.c:143 | the iterator writes every slot in turn up to the first abort |
| AuthFile.WriteAuthFile | telegram-base.c:130-147 | the file is the overlay of magic `0x868aa81d`, max_dc_num, the working DC, the slots and our id, unless a slot aborted |
| AuthFile.SlotCount | telegram-base.c:220 | `for (i = 0; i <= (int)x; i++)` runs x + 1 times, and not at all when `(int)x` is negative |
| AuthFile.ReadDc | telegram-base.c:149-168 | read_dc reads port, length in [0, 100), address, key id and key; it then makes the option, key and signed calls, or aborts on any short read |
| AuthFile.ReadSlot | telegram-base.c:221-225 | one pass reads the flag and calls read_dc only when it is not zero |
| AuthFile.ReadSlots | telegram-base.c:219-226 | the slot loop makes the calls of each slot in order and aborts at the first slot that cannot be read |
| AuthFile.ReadAuthFile | telegram-base.c:195-237 | the reader makes exactly the calls the specification function gives for the file, including the defaults and the aborts |
| AuthFile.DcReadBack | telegram-base.c:109-168 | a DC that write_dc wrote reads back with its address, port and key, and leaves the following bytes unread |
| AuthFile.SlotReadBack | telegram-base.c:221-225 | a written slot reads back as nothing when empty and as its DC when present |
| AuthFile.SlotsReadBack | telegram-base.c:219-226 | the slots written for a table read back as every present DC, in order, up to exactly the end of the slots |
| AuthFile.AuthReadBack | telegram-base.c:195-237 | after a written header and slots, the reader loads every DC and the working DC, then our id from the next 4 bytes; it aborts on 1 to 3 bytes and keeps the prior `our_id` on none |
| AuthFile.AuthFileRoundTrip | telegram-base.c:130-237 | writing a restorable engine over any older file and reading it back gives the DC calls, the working DC and our id |
| AuthFile.ApplyLoadedDc | telegram-base.c:165-167 | read_dc's three calls add the DC with its address, port and key, signed, and change nothing else |
| AuthFile.ApplyLoadedSlots | telegram-base.c:219-226 | the slot loop's calls add the restored DCs to the table and change nothing else |
| AuthFile.ApplyAfterSlots | telegram-base.c:227-235 | the working DC is set, and our id only when it is not zero |
| AuthFile.AuthLoadedState | telegram-base.c:195-237 | the loaded engine holds exactly the DCs numbered 0 to max_dc_num, restored and signed, with the same working DC and our id |
| AuthFile.AuthFileRestores | telegram-base.c:130-237 | write then read restores the DC table, the working DC and our id, whatever the older file held |
| AuthFile.DefaultsInstalled | telegram-base.c:179-193 | the defaults are DCs 1 to 3 (test) or 1 to 5 at the built-in addresses, all on port 443, without key and unsigned, plus the default working DC |
| AuthFile.ServerOptionsApplied | telegram-base.c:180-190 | the first j default options create exactly DCs 1 to j with their addresses on port 443 |
| AuthFile.DefaultsIffForeign | telegram-base.c:200-213 | the defaults are installed exactly when the file is missing, shorter than the magic or carries another magic |
| AuthFile.ZeroDcCountAborts | telegram-base.c:214-215 | after the magic, max_dc_num 0 is fatal |
| AuthFile.BadIpLengthAborts | telegram-base.c:151-154 | a present slot whose address length is outside [0, 100) is fatal |
| AuthFile.DcTruncated | telegram-base.c:149-162 | a DC record cut anywhere aborts read_dc |
| AuthFile.SlotTruncated | telegram-base.c:221-224 | a slot cut anywhere aborts its pass |
| AuthFile.SlotsTruncated | telegram-base.c:219-226 | a slot area cut anywhere aborts the slot loop, never a partial load |
| AuthFile.TruncatedAuthFile | telegram-base.c:214-235 | a written file cut after the magic loads exactly when the cut is after the slots or at the very end |
| AuthFile.HeaderTruncated | telegram-base.c:214-217 | a file cut inside max_dc_num or the working DC aborts |
| AuthFile.OurIdFromUninitialised | telegram-base.c:228-235 | as written, a file ending right after the slots sets the user id to whatever the uninitialised `our_id` held |
| AuthFile.MissingOurIdSetsNone | telegram-base.c:228-235 | with `our_id` starting at 0, such a file loads every DC and the working DC and leaves the user id unset |
| SecretFile.OkChatsIff | telegram-base.c:240-246 | a chat is written exactly when the peer tree holds it as an encrypted chat in state `sc_ok` |
| SecretFile.RecordBytes | telegram-base.c:248-266 | a record is 336 bytes plus the print name |
| SecretFile.WriteHead | telegram-base.c:248-253 | writes chat id, name length and name |
| SecretFile.WriteIds | telegram-base.c:254-258 | writes user id, admin id, date, ttl and layer |
| SecretFile.WriteKeyed | telegram-base.c:259-262 | writes access hash, state, key fingerprint and key |
| SecretFile.WriteTail | telegram-base.c:263-266 | writes the key digest and the three sequence numbers |
| SecretFile.WriteSecretChat | telegram-base.c:240-267 | a saved chat gets its record and one more in the count; any other peer adds nothing |
| SecretFile.WriteSecretChats | telegram-base.c:283-287 | the iterator writes the records of exactly the saved chats, in peer order, and counts them |
| SecretFile.WriteSecretChatFile | telegram-base.c:269-292 | the file is the overlay of magic `0x37a1988a`, version 2, the patched record count and the records |
| SecretFile.PatchCount | telegram-base.c:289-290 | overwriting offset 8 replaces the placeholder count and nothing else |
| SecretFile.ReadHead | telegram-base.c:300-304 | reads id, a name length in (0, 1000) and the name, or aborts |
| SecretFile.ReadIds | telegram-base.c:305-309 | reads the five 32-bit fields, or aborts |
| SecretFile.ReadKeyed | telegram-base.c:310-313 | reads access hash, state, fingerprint and key, or aborts |
| SecretFile.ReadTail | telegram-base.c:314-322 | reads the digest from version 2 on and the sequence numbers from version 1 on |
| SecretFile.ReadSecretChat | telegram-base.c:294-342 | read_secret_chat reads one record and makes its calls in the specified order |
| SecretFile.ReadSecretChats | telegram-base.c:363-365 | the record loop makes the calls of each record in turn and aborts at the first that cannot be read |
| SecretFile.ReadSecretChatFile | telegram-base.c:344-367 | a missing, short or foreign file loads nothing; versions 0, 1 and 2 and a count of at least 0 are required, and anything else is fatal |
| SecretFile.ApplyCreateEvents | telegram-base.c:324-329 | creation sets id, users and name, then date, ttl and layer |
| SecretFile.ApplyKeyEvents | telegram-base.c:330-337 | state and key are set; the digest is the stored one from version 2 on, SHA-1 of the key before |
| SecretFile.ApplySeqEvents | telegram-base.c:338-341 | the sequence numbers and the access hash are set |
| SecretFile.ApplyRecord | telegram-base.c:324-341 | one record's calls replace the chat with that id by the loaded chat and change nothing else |
| SecretFile.HeadReadBack | telegram-base.c:300-304 | a written head with a non-empty name reads back |
| SecretFile.IdsReadBack | telegram-base.c:305-309 | the written ids read back |
| SecretFile.KeyedReadBack | telegram-base.c:310-313 | the written keyed part reads back |
| SecretFile.TailReadBack | telegram-base.c:314-322 | the written tail reads back in version 2 |
| SecretFile.RecordReadBack | telegram-base.c:294-322 | a written record reads back as the chat's fields and leaves exactly the following bytes |
| SecretFile.ChatRecordLoads | telegram-base.c:324-341 | loading a version 2 record of a chat gives that chat back, field for field |
| SecretFile.ChatsReadBack | telegram-base.c:363-365 | the records written for a list of chats read back as each of them in turn |
| SecretFile.SecretHeaderRead | telegram-base.c:355-362 | past a written header, the reader runs the record loop count times in version 2 |
| SecretFile.WrittenChatsRead | telegram-base.c:344-367 | a header, the records and any trailing bytes load exactly the written chats |
| SecretFile.SecretFileLayout | telegram-base.c:269-292 | the file after a save is header, records, then whatever an older file left |
| SecretFile.SecretFileRoundTrip | telegram-base.c:240-367 | save then load gives back exactly the chats in state `sc_ok`, in order, whatever an older, longer file left |
| SecretFile.ApplyLoadedChats | telegram-base.c:363-365 | loading the records changes only the chat table |
| SecretFile.SecretFileRestores | telegram-base.c:240-367 | after save and load every chat that was in state `sc_ok` is back with all its fields, and nothing but the chat table changes |
| SecretFile.OlderRecordLoads | telegram-base.c:332-340 | in versions 0 and 1 the digest is SHA-1 of the key; version 0 never sets the sequence numbers, which stay 0 |
| SecretFile.BadVersionAborts | telegram-base.c:359-360 | a version other than 0, 1 or 2 is fatal |
| SecretFile.NegativeCountAborts | telegram-base.c:361-362 | a negative record count is fatal |
| SecretFile.BadNameLengthAborts | telegram-base.c:302-303 | a name length outside (0, 1000) is fatal |
| SecretFile.EmptyNameRecordAborts | telegram-base.c:251-303 | a chat with an empty print name is written with length 0, and the reader refuses that record |
| SecretFile.EmptyNameAborts | telegram-base.c:240-367 | a saved file containing such a chat cannot be loaded again |
| Login.AllAuthorized | telegram-base.c:509-517 | true exactly when every present DC numbered 0 to max_dc_num has its key |
| Login.CheckAllAuthorized | telegram-base.c:519-527 | the timer stops and goes on to send_sms exactly when all are authorized, and keeps polling otherwise |
| Login.FirstUnsignedLowest | telegram-base.c:376-381 | the DC found is the lowest present unsigned one, and none is found exactly when all present DCs are signed |
| Login.TelegramExportAuthorization | telegram-base.c:376-384 | the loop exports to the first present unsigned DC, or saves and declares the connection ready |
| Login.ExportStepIff | telegram-base.c:376-384 | saving happens exactly when every DC is signed; an export goes to the lowest unsigned DC |
| Login.ExportStep | telegram-base.c:376-384 | what telegram_export_authorization asks for next; its contract is stated by ExportStepIff |
| Login.ExportSaves | telegram-base.c:376-384 | when the export loop decides to save, write_auth_file does not abort, since every present DC is then signed |
| Login.ExportAdvances | telegram-base.c:370-381 | after a successful export the next round exports to a higher DC or saves, so the exports end |
| Login.TelegramSendSms | telegram-base.c:499-507 | with the working DC signed, go to the exports; otherwise request a code |
| Login.SendSmsIff | telegram-base.c:499-507 | a code is requested exactly when the working DC is not signed; otherwise the lowest unsigned DC is exported to, or the DC table is saved when every DC is signed |
| Login.SignInStep | telegram-base.c:487-497 | a rejected number is the error; an accepted one asks for the code alone exactly when it is registered, for name and code otherwise |
| Login.CodeRepliesShape | telegram-base.c:388-404 | for any run of code checks, each reply but the last shows the same form again (code, or name and code after registration), the last starts the exports exactly when some code was right, and with no right code every reply is the form |
| Login.NoAttemptLimit | telegram-base.c:388-404 | after any number of wrong codes the same form is shown again each time, and the first right one starts the exports |
| Login.SignInDialogue | telegram-base.c:487-497 | a rejected number ends the dialogue; an accepted one shows the form its registration calls for, repeats it after each wrong code, and reaches the exports exactly when some code is right, only as the last step |
| Login.LoginOutcome | telegram-base.c:529-538 | the outcome of telegram_login; its contract is stated by TelegramLogin and SessionRestores |
| Login.TelegramLogin | telegram-base.c:529-538 | login reads the auth, state and secret stores in that order, then goes on or polls |
| Login.SessionRestores | telegram-base.c:529-538 | a restart on the three stores a session saved restores its DCs, working DC, user id, cursor and chats, and goes straight to saving and on_ready |
| Login.RestoredReady | telegram-base.c:499-517 | a restored engine passes all_authorized and its working DC is signed |
| IdentIcon.CellColour | telegram-base.c:613-616 | the colour index of a cell is below 4 |
| IdentIcon.WordBits | telegram-base.c:613-616 | the 32-bit read stays inside the 20-byte digest, and the index is two bits of byte k / 4 from bit 2 * (k % 4) |
| IdentIcon.GenerateIdentIcon | telegram-base.c:595-632 | every pixel of the 160 x 160 buffer holds its cell's colour, fully opaque |
| IdentIcon.PaintCell | telegram-base.c:619-630 | the cell loop adds its 20 x 20 block to the painted pixels and keeps the earlier ones |
| IdentIcon.PaintCellRow | telegram-base.c:622-629 | the pixel loop adds one row of the block and keeps the rest |
| IdentIcon.WritePixel | telegram-base.c:625-628 | the four byte stores change those four bytes only |
| IdentIcon.PixelWritten | telegram-base.c:624-628 | painting one pixel makes it correct and keeps every other painted pixel correct |
| IdentIcon.OtherPixelKept | telegram-base.c:625-628 | storing one pixel's bytes leaves every other pixel unchanged |
| PrintName.Present | telegram-purple.c:192-193 | only non-null, non-empty parts are kept, in order |
| PrintName.SpaceJoinShape | telegram-purple.c:192-196 | the joined name has one space between parts and none at either end, and starts and ends with a part |
| PrintName.SpaceJoinSnoc | telegram-purple.c:194 | each part after the first is appended after a single space |
| PrintName.JoinParts | telegram-purple.c:186-197 | the join loop produces the joined name, and aborts once the byte count reaches 9990 |
| PrintName.Sanitised | telegram-purple.c:198-203 | same length, no newline and no `#`, and every other byte kept |
| PrintName.SanitiseInPlace | telegram-purple.c:198-203 | the in-place loop turns `\n` into a space and `#` into `@` |
| PrintName.DecimalInjective | telegram-purple.c:214 | different suffix numbers print differently |
| PrintName.Dedup | telegram-purple.c:204-215 | the first free candidate from n on; its contract is stated by DedupFirstFree and DedupAborts |
| PrintName.DedupFirstFree | telegram-purple.c:207-215 | the name chosen is the first candidate that is unused or already the peer's own |
| PrintName.DedupAborts | telegram-purple.c:207-215 | de-duplication aborts exactly when every candidate up to `" #9999"` belongs to another peer |
| PrintName.CandidatesDistinct | telegram-purple.c:204-215 | candidates from `#`-free base names are equal only for the same base and number |
| PrintName.DedupName | telegram-purple.c:204-215 | the counter loop picks the de-duplicated name, with n at most 9999 |
| PrintName.FormatPrintName | telegram-purple.c:185-217 | format_print_name is join, then sanitise, then de-duplicate |
| PrintName.PrintNameUnique | telegram-purple.c:185-217 | the print name is free for the peer, has no newline, and is the first free candidate of the sanitised join |
| PrintName.PrintNameAborts | telegram-purple.c:192-215 | format_print_name aborts exactly when the joined name has 9990 bytes or more, or every candidate up to `" #9999"` belongs to another peer |
| Dispatch.AtoiIdName | telegram-purple.c:271 | `atoi` of a peer number printed with `%d` is that number |
| Dispatch.FindPeerByName | telegram-purple.c:270-278 | the lookup by printed number; its contract is stated by FindPeerFirstKind and FindsNamedUser |
| Dispatch.FindPeerFirstKind | telegram-purple.c:270-278 | the lookup finds nothing exactly when no user, chat or encrypted chat has the number; otherwise the first of them in that order |
| Dispatch.FindsNamedUser | telegram-purple.c:270-272 | a user's printed number finds that user |
| Dispatch.Handle | telegram-purple.c:380-449 | how update_message_received handles a message; its contract is stated by ShownIff and QueuesReceiptIff |
| Dispatch.ShownIff | telegram-purple.c:404-419 | an ordinary message is shown exactly when it is not empty, not deleted, created, addressed, without photo, with text, and not from this session |
| Dispatch.QueuesReceipt | telegram-base.c:556-565 | chat_add_message queues a read receipt for every message it shows in an open conversation; its contract is stated by QueuesReceiptIff |
| Dispatch.QueuesReceiptIff | telegram-purple.c:384-449 | a receipt is queued exactly for a service message in an open chat and for a shown message in an open chat, in a secret chat, or received from another user; a message sent by this account never gets one in a user conversation |
| Dispatch.SecretChatUpdate | telegram-purple.c:511-561 | the effects of update_secret_chat_handler in order; its contract is stated by RewriteOnWorkingOrDeleted and AcceptancePolicy |
| Dispatch.RewriteOnWorkingOrDeleted | telegram-purple.c:514-516 | the handler rewrites the secret store exactly when the update is WORKING or DELETED, and does so first |
| Dispatch.AcceptancePolicy | telegram-purple.c:529-552 | a request with a buddy is accepted when the setting is "always" and asked about when it is "ask" (the default), and any other value does nothing; asking about a user without a buddy faults, as the handler's last act |
| Dispatch.AcceptCompleted | telegram-purple.c:483-486 | write_secret_chat_cb rewrites the secret store; its contract is stated by AcceptedChatsSaved |
| Dispatch.AcceptAnswered | telegram-purple.c:493-499 | accept_secret_chat_cb sends the accept request; its contract is stated by AcceptedChatsSaved |
| Dispatch.DeclineAnswered | telegram-purple.c:501-509 | decline_secret_chat_cb deletes the chat and removes its buddy |
| Dispatch.AcceptedChatsSaved | telegram-purple.c:483-509 | once the engine completes an accepted request and the chat is in sc_ok, the rewrite by write_secret_chat_cb loads that chat back with all its fields and changes nothing else; neither answer rewrites the store by itself |
| Dispatch.SendImDecision | telegram-purple.c:880-911 | the outcome of tgprpl_send_im; its contract is stated by SendImGating |
| Dispatch.SendImGating | telegram-purple.c:880-911 | a text is sent exactly when not in fallback mode and the peer exists and is not an unready secret chat, and an unknown peer returns -1 |
| Dispatch.FormatStatus | telegram-purple.c:84-86 | "Online" exactly when online, otherwise "Mobile" |
| Connection.Connection.constructor | telegram-base.c:529-538 | the connection as on_ready finds it: the cursor is the one telegram_login read back from the state store, nothing is joining or queued |
| Connection.Connection.QueriesTimerfunc | telegram-purple.c:290-299 | the state store is written only when the flag was set; the flag is cleared, the timer continues, and the store then gives back the cursor |
| Connection.Connection.UpdateMessageReceived | telegram-purple.c:380-406 | the flag is set whatever the message, and the message is handled as the filter decides |
| Connection.Connection.RequestCodeInChat | telegram-base.c:442-450 | without a request dialog the next text is taken as the code |
| Connection.Connection.SendIm | telegram-purple.c:880-911 | in fallback mode the text becomes the code and the mode ends; otherwise it is sent to the found peer, or -1 is returned |
| Connection.Connection.ChatShow | telegram-base.c:540-555 | without an open conversation, the chat's info is requested once and the chat marked as joining |
| Connection.Connection.OnChatGetInfo | telegram-purple.c:705-734 | a failed info request aborts and changes nothing; otherwise the chat is no longer joining |
| Connection.FirstTick | telegram-purple.c:736-755 | the first tick of the timer on_ready starts leaves what the state store gives back unchanged: it writes, if anything, the cursor read from that store |
| Connection.TimerTwice | telegram-purple.c:290-299 | a second tick with no update in between writes nothing |
| Connection.ShowTwice | telegram-base.c:545-552 | a chat shown twice before its info arrives is requested once |

## Left out

- File-system effects are not modelled: path building, `open`, `close`, `lseek` and a failing `asprintf`. A file is its bytes, or None when it cannot be opened.
- A failing `write` is not modelled. The `assert` on each write is taken to hold, except where a DC that is not signed aborts the writer.
- A failed `assert` ends the process. The model does not follow it past that point: the outcome is `Abort`, and nothing after it is modelled.
- SHA-1 (OpenSSL) is a function parameter, not computed.
- PNG encoding and the image store after the buffer is filled (`lodepng_encode32`, `purple_imgstore_add_with_id`) are foreign libraries.
- The addresses behind TG_SERVER_* and the default DC numbers live in a header that is not part of this model. They are the `Config` parameter.
- `tgl_dc_iterator_ex`, `tgl_peer_iterator_ex` and the engine's tables are code that is not visible. The DC table is a map and the peer tree a sequence in iteration order. The engine's effect of each `bl_do_*` call is modelled only for the fields the stores touch.
- `bl_do_encr_chat_create` is assumed to leave the fields it does not set at zero. The `assert (P && (P->flags & FLAG_CREATED))` after it is taken to hold.
- Version-0 and version-1 records get the digest SHA-1 of the key. The static `sha` buffer read_secret_chat keeps between calls is not modelled.
- The record loop counts its turns up. `while (x-- > 0)` runs the same count.
- AuthFile.Restored: the key id of a DC is not restored (key id 0), because read_dc reads it and never passes it on (telegram-base.c:159-167).
- AuthFile.ReadAuthFile: `our_id` starts at 0 in the corrected reader. The as-written behaviour is kept as AuthEventsAsWritten (see Findings).
- The 256-byte keys and 20-byte digests are fixed-length sequences. Lengths of names and addresses are below 2^31 (`CString`).
- Login timers and scheduling are not modelled: the 100 ms poll is the `keepPolling` result and a `PollAuthorized` step. The asynchronous callbacks are modelled as the next step they choose.
- Login.TelegramSendSms: the working DC is looked up in the DC table. A missing entry counts as unsigned.
- The login request dialogs are not modelled, including the registration form and its empty-field retry (telegram-base.c:421-485). They are UI; only the steps they lead to are kept.
- The identicon loops are split into helper methods (PaintCell, PaintCellRow, WritePixel), one per loop level. The bytes written and their order within a pixel are those of the source.
- Dispatch.AtoiIdName: `atoi` is modelled on unbounded integers. Overflow is undefined behaviour in C and is not modelled.
- Dispatch.Message: peer types are user, chat and encrypted chat, and `to == None` is peer type 0, the only one that takes the "Bad msg" exit (telegram-purple.c:407). Any other non-zero type cannot be expressed; in the source such a message still has its photo loaded, or falls through the switch without being shown.
- The text of service messages and messages without text are not modelled. `format_service_msg` and `format_message` are formatting; `hasText` stands for a message with text.
- Dispatch.QueuesReceipt: `format_service_msg` is taken to return a text, so a service message in an open chat always gets a receipt. The source skips one whose text is NULL.
- Connection.UpdateMessageReceived: the cursor moves only through received messages in the model. The engine's other updates, which also move it, are not visible.
- Connection.Connection: `joining_chats` is keyed by the chat number. The source keys it by the number printed with `%d`, which is the same key.
- PrintName.JoinParts: truncation by `tgl_snprintf` at 9999 bytes is not modelled separately. Every join that would reach it already fails the 9990 assert.
- The libpurple UI is not modelled: the buddy list, conversations, notifications and status types (telegram-purple.c:757-1271). In Dispatch it becomes the recorded `Effect` values.
- Timers are not modelled; `queries_timerfunc` is called directly.
- AuthFile.DcBytes: a signed DC without a key writes 256 zero bytes for its key, on the assumption that the engine's DC records are zero-allocated. That allocation is not part of this model.
- Connection.Connection.constructor: `connection_data_init` is not part of this model, so the dirty flag's value when on_ready starts the timer is a parameter (`dirty`).
- Connection.StoredCursor: the cursor a store gives back is the one a freshly initialised engine holds after reading it, with a zero cursor before the read (`tgl_init` is not part of this model). The auth store, read first, does not touch the cursor.
- Dispatch.StoreAfter: the peers are fixed while a run of effects is applied. In the source, `bl_do_encr_chat_delete` changes them, but no later effect of that run rewrites the store.
- Dispatch.DeclineAnswered: what the engine does with a deleted chat is not visible, so the model does not state that a later rewrite leaves the chat out.

## Findings

| source | as written | input that shows it | evidently intended | confidence | as-written member | corrected member |
|---|---|---|---|---|---|---|
| telegram-base.c:228-235 | `our_id` is declared without a value. When the final read returns 0 bytes, `if (our_id)` tests an uninitialised variable and may call `bl_do_set_our_id` with garbage | the 20-byte file magic, max_dc_num 1, working DC 2, two empty slots, ending there | a file without the trailing id leaves the user id unset | not executed | AuthFile.OurIdFromUninitialised | AuthFile.MissingOurIdSetsNone |
