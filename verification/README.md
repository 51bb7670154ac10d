# Keyboard-layout translator bot: verified model of its core

This project models, in Dafny, the core of a chat bot that converts text typed on the wrong keyboard layout
between English QWERTY and Ukrainian ЙЦУКЕН, keeps a table of the chat messages it has seen, and prunes that
table by age. It covers three parts:

- **Layout mapper** (`layout.dfy`, module `Layout`). The two fixed 34-entry tables `en_to_ua` and `ua_to_en`
  are written as lookup functions `EnToUa` and `UaToEn`, each returning an `Option` just as `dict.get` does.
  `Transliterate` applies a table one character at a time. It looks up the lower-cased character and passes
  the character through unchanged when the lookup misses.
- **Message store and translation requests** (`store.dfy`, module `Store`, and `handlers.dfy`, module
  `Handlers`). The `messages` table is the class `MessageStore`, which holds a `seq<Record>` in insertion
  order. `SaveMessage` is the guarded append of `save_message`. `GetMessageById` is the first-match query.
  `HandleTranslation` is the three-way choice made by `handle_translation`: it returns an `Outcome`
  (`NoReply`, `Reply(text)`, `Help(kind)` or `Error`) standing for what the handler replies. The module also
  holds the string helpers `extract_command_text` (slice, then Python `strip`) and `split(' ', 1)[1]`. The
  handler uses only the second; `extract_command_text` is called nowhere in the source and is modelled as a
  standalone helper.
- **Retention** (`store.dfy`, `database.dfy`, module `Database`). `CleanupOldMessages` keeps the records
  created at or after `now` minus 24 hours. `CheckDbSize` runs that same cleanup when the database file
  exists and its size strictly exceeds the ceiling. `DbPath` derives the file path from the connection URL.

Modelling choices:

- Clock, file system and store reachability are parameters:
  - `now` is an integer number of microseconds.
  - `fileExists` and `fileSize` are functions from path to answer.
  - `storeAvailable` says whether a session could be opened.
- Lower-casing (`Layout.ToLower`) covers ASCII A–Z, the Cyrillic capitals U+0400–U+042F (Є, І, Ї included),
  Ґ, and U+212A KELVIN SIGN, which Python lower-cases to `k`. Every other character is left unchanged.
  `Layout.ToLowerOtherCapital` proves that the Kelvin sign is the only one of these besides the two alphabets
  that lands on a key. Python's `str.lower` changes other characters too, but per the Unicode case tables never
  into a table key, so the lookup hits, and hits the same key, exactly when it does in the source.
- The size test is decided on integers, `bytes > MAX_DB_SIZE_MB * 1048576`. `Database.SizeExceedsLimit`
  proves this equal to the source's division compared on exact reals. The source's float division is exact
  below 2^53 bytes.
- The table is a sequence in insertion order. The surrogate key `id` is not kept: a cleanup shifts positions
  while `id` keeps its value, so no position stands for it.
- Exceptions are modelled as values where the source's own handling matters. `Exit` is how a statement ends
  (returns, or raises a named exception), `TryStatement` is Python's try/except/finally over such exits, and
  `Binding` says whether a local has been assigned. The exits of `cleanup_old_messages` and `check_db_size`
  are computed from that structure.
- Exceptions are matched by class name, not by class hierarchy. The error an unreachable SQLite store raises
  is `OperationalError`, a subclass of `SQLAlchemyError`, and `UnboundLocalError` is a `NameError`, which is
  neither a database nor an OS error. The conclusions hold for the names used.

Behaviour of the code worth noting:

- The two tables are exact inverses of each other on their 34 keys (`Layout.UaToEnUndoesEnToUa`, `Layout.EnToUaUndoesUaToEn`). The mapping
  is not lossy between table characters. A round trip fails only through case (`"G"` comes back as `"g"`) or
  through characters that are not keys of the first table.
- Output is not always lower case. Mapped characters come out as the table's value. Unmapped characters keep
  their case.
- `"ghbdtn"` maps to `"привет"` (`Layout.GhbdtnIsPrivet`). The word `"привіт"` comes from `"ghbdsn"`.
- `handle_translation` does not write the translation back into the stored record. It does not shape its
  reply by chat kind: the reply is the translation alone in every chat. It does not store inline-text
  requests or re-record replies that are missing from the store. The model does none of these either.
- The bot-name suffix form `/translateua@Bot text` is handled only because the suffix comes before the first
  space. The inline argument is everything after the first space, unstripped.

## Model

| member | source | states |
|---|---|---|
| `Layout.EnToUa` | src/bot/logic.py:12-19 | every lower-case ASCII letter is a key; every key and value is its own lower-case form, and no key maps to itself |
| `Layout.UaToEn` | src/bot/logic.py:33-40 | every letter of the Ukrainian alphabet is a key; every key and value is its own lower-case form, and no key maps to itself |
| `Layout.ToLower` | src/bot/logic.py:20 | `c.lower()` changes exactly the capitals it knows (A-Z, Cyrillic U+0400-U+042F, Ґ, the Kelvin sign), never returns one, and sends A-Z into a-z; the letter lemmas below say which letter each alphabet's capital becomes, and `ToLowerOtherCapital` covers the rest |
| `Layout.ToLowerOtherCapital` | src/bot/logic.py:20-41 | every other capital it changes is the Kelvin sign, which becomes the key 'k', or a Cyrillic capital outside the Ukrainian alphabet, whose lower-case form is a key of neither table, so it passes through as in the source |
| `Layout.ToLowerUaLetter` | src/bot/logic.py:41 | `c.lower()` sends each of the 33 Ukrainian capitals (Ґ, Є, І, Ї included) to its own lower-case letter, which is a ua_to_en key |
| `Layout.ToLowerEnLetter` | src/bot/logic.py:20 | `c.lower()` sends each of A-Z to its own lower-case letter, which is an en_to_ua key |
| `Layout.CapitalsMapLikeLowerCase` | src/bot/logic.py:20-41 | every capital of the Ukrainian alphabet maps to English like its lower-case letter, and every capital of A-Z maps to Ukrainian like its lower-case letter |
| `Layout.TransliterateToUa` | src/bot/logic.py:1-20 | the output has the input's length, and character i is the en_to_ua value of the lower-cased input character i, or that character itself when it is not a key |
| `Layout.TransliterateToEn` | src/bot/logic.py:22-41 | the output has the input's length, and character i is the ua_to_en value of the lower-cased input character i, or that character itself when it is not a key |
| `Layout.Transliterate` | src/bot/logic.py:20 | every character maps to exactly one character, so the output has the input's length |
| `Layout.TransliterateAt` | src/bot/logic.py:41 | output character i is the table value of the lower-cased input character i, or that character itself when it is not a key |
| `Layout.TransliterateConcat` | src/bot/logic.py:20 | the mapping acts per character: f(a + b) == f(a) + f(b) |
| `Layout.PassThrough` | src/bot/logic.py:20 | a string none of whose lower-cased characters is a key is returned unchanged, case included |
| `Layout.CaseInsensitive` | src/bot/logic.py:41 | two strings that differ only in the case of characters whose lower-case form is a key map to the same output |
| `Layout.UpperCyrillicToEn` | src/bot/logic.py:41 | upper-case Cyrillic maps like lower-case: "ПРИВІТ" and "привіт" give the same English-layout text |
| `Layout.UaToEnUndoesEnToUa` | src/bot/logic.py:33-40 | ua_to_en undoes en_to_ua on every en_to_ua key |
| `Layout.EnToUaUndoesUaToEn` | src/bot/logic.py:12-19 | en_to_ua undoes ua_to_en on every ua_to_en key, so with the row above each table is the other's inverse |
| `Layout.TablesInjective` | src/bot/logic.py:12-19 | neither table sends two keys to the same character |
| `Layout.RoundTripToUa` | src/bot/logic.py:12-41 | a string made only of en_to_ua keys comes back unchanged from to_ua then to_en |
| `Layout.RoundTripToEn` | src/bot/logic.py:12-41 | a string made only of ua_to_en keys comes back unchanged from to_en then to_ua |
| `Layout.UpperCaseDoesNotRoundTrip` | src/bot/logic.py:20 | "G" and "g" both map to "п", and "G" comes back as "g" |
| `Layout.MixedInputDoesNotRoundTrip` | src/bot/logic.py:20 | a Cyrillic "п" passes through to_ua unchanged and then becomes "g", so the round trip needs key-only input |
| `Layout.GreetingToUa` | src/bot/logic.py:13-18 | to_ua("ghbdsn") == "привіт" |
| `Layout.GreetingToEn` | src/bot/logic.py:34-39 | to_en("привіт") == "ghbdsn" |
| `Layout.GhbdtnIsPrivet` | src/bot/logic.py:13-18 | to_ua("ghbdtn") == "привет" |
| `Store.GetMessageById` | src/bot/handlers.py:44-59 | returns none exactly when no record has both the message id and the chat id; otherwise it returns the first such record in insertion order, so a record from another chat is never returned |
| `Store.MessageStore.SaveMessage` | src/bot/handlers.py:14-42 | empty text, a missing sender or a bot sender gives none and leaves the table unchanged; otherwise exactly one record is appended, holding the ids and text with empty translation fields, and earlier records are untouched; keeps every stored text non-empty |
| `Store.LookupAfterAppend` | src/bot/handlers.py:27-56 | after an append, lookup still returns the earlier record when one had the key, so a duplicate save is never seen; otherwise it returns the new record exactly when it has the key |
| `Store.LookupFindsFirst` | src/bot/handlers.py:48-51 | a record preceded by no record with its key is the one the lookup returns |
| `Store.Retained` | src/db/database.py:76-81 | a record is kept exactly when it was in the table and was created at or after the cutoff; a record exactly at the cutoff stays |
| `Store.MessageStore.CleanupOldMessages` | src/db/database.py:71-89 | the table becomes the records created at or after now minus 24 hours, and the deleted count is the old size minus the new size; an unreachable store leaves the table unchanged and deletes nothing |
| `Store.RetainedConcat` | src/db/database.py:79-81 | cleanup acts record by record, so the kept records stay in their original relative order |
| `Store.RetainedCounts` | src/db/database.py:76-81 | each distinct record keeps all its copies if recent and loses all of them if older than the cutoff |
| `Store.RetainedAllRecent` | src/db/database.py:79-81 | a table with nothing older than the cutoff is left unchanged |
| `Store.RetainedIdempotent` | src/db/database.py:79-81 | a second cleanup with the same now deletes nothing |
| `Store.OpenSession` | src/db/database.py:34-45 | `next(get_db())` returns exactly when the store can be reached; otherwise the connection probe's SQLAlchemyError is logged and re-raised |
| `Store.SessionBinding` | src/db/database.py:74 | the local `db` is assigned exactly when opening the session returned |
| `Store.CloseSession` | src/db/database.py:89 | `db.close()` returns exactly when `db` is assigned, and raises UnboundLocalError otherwise |
| `Store.CleanupExitAsWritten` | src/db/database.py:73-89 | derived from the try body that opens the session, the `except Exception` clause and the unconditional `finally: db.close()`: the cleanup raises exactly when the store cannot be reached |
| `Store.CleanupRaisesWhenStoreDown` | src/db/database.py:73-89 | on an unreachable store, opening the session raises SQLAlchemyError (src/db/database.py:39-43), the handler catches it, `db` stays unbound, and the `finally` clause raises UnboundLocalError, which escapes |
| `Store.CleanupReturnsWhenStoreUp` | src/db/database.py:73-89 | when the store can be reached the cleanup as written returns normally |
| `Store.CleanupExitAlwaysReturns` | src/db/database.py:73-89 | with the `finally` clause closing only an opened session, the cleanup always returns |
| `Database.RemoveAll` | src/db/database.py:16 | the left-to-right, non-overlapping removal never makes the string longer |
| `Database.DbPath` | src/db/database.py:50 | the path is never longer than the URL, and a URL holding no `sqlite:///` is the path unchanged |
| `Database.RemoveAllFirstOccurrence` | src/db/database.py:16 | the first occurrence is cut out and the scan goes on after it: a + pat + b, with no occurrence starting inside a, gives a followed by the removal from b |
| `Database.RemoveAllNoOccurrence` | src/db/database.py:50 | removing a pattern that never occurs leaves the string unchanged |
| `Database.DbPathOfSqliteUrl` | src/db/database.py:16 | `sqlite:///` followed by a path gives that path, provided the path has no `sqlite:///` of its own |
| `Database.DefaultDbPath` | src/config/settings.py:15 | the default URL gives the file `translator_bot.db` |
| `Database.DbPathWithoutScheme` | src/db/database.py:50 | a URL with no `:` is used as the path unchanged |
| `Database.SizeExceedsLimit` | src/db/database.py:54-59 | the integer test equals the source's comparison of bytes / (1024 * 1024) against MAX_DB_SIZE_MB, taken on exact reals |
| `Database.ThresholdIsStrict` | src/db/database.py:59 | at exactly the ceiling nothing happens, and one byte more triggers the cleanup |
| `Database.CheckDbSize` | src/db/database.py:47-64 | the cleanup runs exactly when the file at db_path exists and is strictly over the ceiling; it then applies the same 24-hour horizon as the scheduled cleanup, and otherwise the table is unchanged |
| `Database.CheckDbSizeHandler` | src/db/database.py:63 | `except (SQLAlchemyError, OSError)` catches exactly those two exceptions |
| `Database.CheckDbSizeExitAsWritten` | src/db/database.py:47-64 | derived from the try body and its handler for SQLAlchemyError and OSError only: the size check lets an exception out exactly when it triggers the cleanup on an unreachable store |
| `Database.CheckDbSizeEscapes` | src/db/database.py:47-64 | the handler does not name UnboundLocalError, so an over-ceiling check on an unreachable store raises it |
| `Database.CheckDbSizeExitAlwaysReturns` | src/db/database.py:47-64 | with the corrected cleanup the size check always returns |
| `Handlers.Strip` | src/bot/handlers.py:12 | the result starts and ends with non-whitespace, and it is empty exactly when the input is all whitespace |
| `Handlers.StripBounds` | src/bot/handlers.py:12 | the result is one contiguous piece of the input, with only whitespace cut off on either side |
| `Handlers.StripIdempotent` | src/bot/handlers.py:12 | stripping twice is stripping once |
| `Handlers.ExtractCommandText` | src/bot/handlers.py:9-12 | the result is empty when the command token reaches the end of the text, and in every case it is either empty or starts and ends with non-whitespace |
| `Handlers.ExtractCommandTextBounds` | src/bot/handlers.py:9-12 | the result is text[offset + length:] with only surrounding whitespace removed |
| `Handlers.AfterFirstSpace` | src/bot/handlers.py:91-92 | the result is the suffix after a space, and no space comes before that one |
| `Handlers.AfterFirstSpaceOf` | src/bot/handlers.py:91-92 | for "prefix rest" where the prefix has no space, the argument is exactly rest, including further spaces or nothing |
| `Handlers.HelpFor` | src/bot/handlers.py:118-141 | private chats get the private help text; group, supergroup and channel chats get the group text |
| `Handlers.StoredSource` | src/bot/handlers.py:81-84 | without a reply there is no stored text; a reply to a key no record has gives none; otherwise the text given is non-empty and is the text of a record with the replied-to key |
| `Handlers.HandleTranslation` | src/bot/handlers.py:61-102 | there is no reply exactly when the update has no message; the error reply comes exactly when the store cannot be opened; help comes exactly when there is no usable stored text and no space in the command, and uses the chat's help text |
| `Handlers.TranslatesRepliedToMessage` | src/bot/handlers.py:81-87 | a reply to a stored record with non-empty text translates that text, the first record with the key winning, whatever the command says |
| `Handlers.TranslatesTextAfterFirstSpace` | src/bot/handlers.py:89-95 | with no usable reply, a command with a space translates the text after the first space, which may be empty |
| `Handlers.HelpWhenNothingToTranslate` | src/bot/handlers.py:84-98 | with no usable stored text (no reply, a reply to a message not in the store, or one whose stored text is empty) and no space in the command, the chat's help is shown |
| `Handlers.SavedRecordsAreUsable` | src/bot/handlers.py:81-84 | in a valid store, whose saved texts are all non-empty, a reply resolves to stored text exactly when a record with its key exists |
| `Handlers.TranslationTypeIgnored` | src/bot/handlers.py:61-62 | the translation_type argument has no effect on the outcome |
| `Handlers.ReplyKeepsLength` | src/bot/handlers.py:85-94 | a translated reply has exactly as many characters as the text it was made from |
| `Handlers.InlineCommandInGroup` | src/bot/handlers.py:89-95 | "/translateua@BotUsername ghbdsn" in a group is answered with exactly "привіт" |
| `Handlers.ReplyToSavedMessage` | src/bot/handlers.py:14-87 | save "ghbdsn", then reply to it with /translateua: the answer is "привіт" |

## Left out

- Chat-platform plumbing is not modelled: `Update` and `reply_text`, `setup_commands`, `setup_handlers`,
  `message_handler` dispatch and the async machinery. The outcome value stands for the reply sent.
- The ORM is not modelled: engine and session creation, `init_db`, commit and refresh, and directory creation.
  `get_db`'s connection probe appears only as the exception it raises on an unreachable store. The table is a
  sequence in insertion order, and the surrogate key `id` is not kept.
- Store.GetMessageById: the query has no ordering, so `.first()` returns whichever matching row the database
  yields. The model assumes insertion order, which is what a plain SQLite table scan gives.
- `translate_ua` and `translate_en` are not modelled separately. They only pick the `Direction` and the unused
  type string passed to `HandleTranslation`.
- Job scheduling in `src/main.py` is not modelled: the 3-day and 7-day cleanups and the 6-hour size check.
  One run of each job is what `CleanupOldMessages` and `CheckDbSize` model.
- Failures inside a call are only partly modelled. `storeAvailable` covers a session that cannot be opened.
  These are not modelled: a query that fails after the session opened (the source's lookup turns it into "not
  found"), a failed commit in `save_message` (it returns none), and a failed `reply_text`.
- `Store.MessageStore.SaveMessage`: a message whose text is None is treated like one whose text is empty.
  Both are skipped in the source.
- Layout.ToLower: only the capitals listed above are lower-cased. That Python lower-cases no other character
  into a key of either table is a property of the Unicode case tables and is not proved here.
- `Handlers.HelpFor`: only the private-or-group choice is modelled, not the wording of the help texts. The
  `/help` command sent without a message is not modelled.
- `Handlers.ExtractCommandText`: entity offsets and lengths are counted in characters, as the slicing in the
  source does. The platform counts them in UTF-16 units.
- `Database.CheckDbSize`: the integer comparison matches the float one only below 2^53 bytes. Above that the
  float division rounds. An `OSError` from the size query is not modelled.
- Handlers.HandleTranslation: for a command whose text after the first space is empty ("/translateua "),
  with no usable stored text, the model answers `Reply("")`. The chat platform refuses an empty message, so the
  source's `reply_text` raises and the handler sends the error reply instead. Failed replies are not modelled.
- Environment and `.env` loading and logger setup are not part of this model. `MAX_DB_SIZE_MB` is a parameter.

## Findings

| source | as written | input that shows it | evidently intended | confidence | as-written member | corrected member |
|---|---|---|---|---|---|---|
| src/db/database.py:71-89 | `finally: db.close()` runs even when `db = next(get_db())` raised, so `db` is unbound and the `finally` clause raises UnboundLocalError. That error is not a database or OS error, so it also escapes `check_db_size`'s handler (src/db/database.py:63) | the database cannot be reached when the cleanup or an over-ceiling size check runs | log the failure, leave the table unchanged and return | high; not executed | `Store.CleanupRaisesWhenStoreDown`, `Database.CheckDbSizeEscapes` | `Store.CleanupExit` with `Store.CleanupExitAlwaysReturns`, `Database.CheckDbSizeExit` with `Database.CheckDbSizeExitAlwaysReturns`, `Store.MessageStore.CleanupOldMessages` (an unreachable store leaves the table unchanged and deletes nothing; `Database.CheckDbSize` uses it) |
