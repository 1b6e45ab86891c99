# WhatsApp helper: chat resolution, media sanitising, temp files and group membership

This project models the helper module of a small HTTP-to-WhatsApp bridge
(`wa-helper.js`). The module does four things, and the model has one module for each:

- **Chat resolution** (`Resolver`): `findChat` turns a free-text query into one chat from the
  client's chat list. It tries three steps, and the first hit wins:
  1. an exact serialized id (`...@c.us` / `...@g.us`);
  2. the query's digits against a chat's user part;
  3. a case-insensitive substring of the chat's display name.

  `listGroups` and `listContacts` filter and map the same list.
- **Media sanitising** (`Sanitizer`, pure): the media pipeline runs in this order.
  1. WebM video is converted to MP4, and WAV-family audio to MP3.
  2. `application/mp4` is read as `video/mp4`.
  3. The type is checked against an allow-list chosen by its `video/` or `audio/` prefix, with documents as the fallback.
  4. The final file must be at most 64 MiB.

  The converted file's path is the input path with its trailing extension replaced.
- **Temp-file bookkeeping and sending** (`Helper`, imperative): a class holds three fields.
  - the set of paths that exist on disk;
  - the module-level ledger `globalTempFiles`;
  - the log of messages handed to the chat client.

  `convertFile` appends to the ledger. `detectAndConvertMedia` updates its locals step by step.
  `sendMessageWithOptionalMedia` sends exactly one message and deletes its temp files in a `finally` loop.
  `cleanupTempFiles` sweeps the ledger and clears it.
- **Group membership** (`Groups`): listing participants, and removing one or all participants.
  Both removals are gated on the caller being an admin or super-admin of the group.
  Each call to the client's `removeParticipants` is recorded.

`Text` holds the string operations these rely on: `trim`, the digit projection, ASCII
`toLowerCase`, `includes` and `startsWith`. `Wrappers` holds `Option`. `Scenarios` holds two
client methods that call the `Helper` class on concrete files and check what its contracts promise.

Some inputs come from code outside the model, so the model takes them as parameters:
- the MIME type that `mime.lookup` returns;
- whether the transcoder succeeds;
- the size of each file (`fs.statSync`);
- whether the send succeeds;
- whether the removal call succeeds;
- the participants that `getChatById` reports for a chat id;
- the client's own id.

Where the code does something its comments, or a first reading, would not suggest, the model follows the code:
- The size ceiling is `MAX_FILE_SIZE`, 64 MiB (wa-helper.js:11). The function's doc comment (wa-helper.js:76) says 16 MB.
- The doc comment of `findChat` (wa-helper.js:141-143) lists phone lookup under "Person" only. The phone-digits step (wa-helper.js:159) also matches group chats.
- The output path is derived by replacing the trailing extension (wa-helper.js:46). So an input path without a dot is its own output path, and converting it deletes the input itself (`Helper.DotlessInputConsumed`).
- On a failed conversion, the code removes whatever exists at the output path, even a file that was there before (wa-helper.js:62). The façade removes that path on success too, once the send is done.
- The document flag is set when the original path contains `.pdf` anywhere (wa-helper.js:200). The code does not look at the extension.

## Model

| member | source | states |
|---|---|---|
| Text.Trim | wa-helper.js:147 | the trimmed query is a contiguous piece of the input with only white space dropped before and after it; it neither starts nor ends with white space; it is empty exactly when the input is all white space |
| Text.Digits | wa-helper.js:157 | the digit projection holds only digits and is empty exactly when the input has none |
| Text.DigitsOfDigits | wa-helper.js:157 | a string made only of digits projects to itself |
| Text.DigitsAppend | wa-helper.js:157 | the projection keeps the digits in order (it distributes over concatenation) |
| Text.ToLower | wa-helper.js:163-165 | same length; each upper-case ASCII letter becomes its own lower-case letter; every other character is kept |
| Text.StartsWith | wa-helper.js:120-122 | `startsWith` holds exactly when the prefix fits and agrees character by character |
| Text.Contains | wa-helper.js:165-167 | `includes` needs the substring to fit, and holds whenever the string starts with it |
| Text.ContainsAt | wa-helper.js:165-167 | a name that contains the query at any position satisfies `includes` |
| Text.ContainsHasOccurrence | wa-helper.js:165-167 | conversely, when `includes` holds, the query occurs at some position of the name |
| Text.TrimIdempotent | wa-helper.js:147 | trimming an already trimmed query changes nothing |
| Resolver.DisplayName | wa-helper.js:165 | the name if there is one, else the formatted title; empty only when both are missing |
| Resolver.FindFirst | wa-helper.js:153 | `find` returns the index of the first chat the step matches, and returns nothing exactly when no chat matches |
| Resolver.FindChat | wa-helper.js:146-171 | the result is always a chat of the fetched list; an empty or all-white-space query gives `null` |
| Resolver.Search | wa-helper.js:150-170 | the three searches return only chats from the list |
| Resolver.ResolvesBySerializedId | wa-helper.js:152-154 | the first chat whose serialized id is the trimmed query is returned, whatever the names |
| Resolver.ResolvesByPhone | wa-helper.js:156-161 | with no id match, the first chat whose user part equals the query's digits is returned, group chats included |
| Resolver.ResolvesByName | wa-helper.js:163-168 | with no id or phone match, the first chat whose lower-cased display name contains the lower-cased query is returned, chats without an id included |
| Resolver.NotFoundIff | wa-helper.js:146-171 | `null` exactly when the query trims to empty or none of the three steps matches |
| Resolver.QueryIsTrimmed | wa-helper.js:147 | resolution depends only on the trimmed query |
| Resolver.DigitQueryBeatsNames | wa-helper.js:156-168 | a digit-only query equal to a chat's user part picks that chat even if an earlier chat's name contains the digits |
| Resolver.GroupChats | wa-helper.js:175 | the group filter keeps exactly the group chats |
| Resolver.DirectChats | wa-helper.js:181 | the contact filter keeps exactly the non-group chats |
| Resolver.FiltersPartition | wa-helper.js:173-187 | every chat is in exactly one of the two filters |
| Resolver.GroupChatsKeepOrder | wa-helper.js:175 | the group filter keeps list order |
| Resolver.DirectChatsKeepOrder | wa-helper.js:181 | the contact filter keeps list order |
| Resolver.ListGroups | wa-helper.js:173-176 | one `{name, id}` per group chat, in order; a throw exactly when some group chat has no id |
| Resolver.ListContacts | wa-helper.js:178-187 | one `{name, id, phone}` per direct chat, in order, with the `name` / `formattedTitle` / `""` fallback; a throw exactly when some direct chat has no id |
| Resolver.ListingsCoverAllChats | wa-helper.js:173-187 | when every chat has an id, the two listings together have one entry per chat |
| Groups.MemberName | wa-helper.js:230 | the name if there is one, else the push name; empty only when both are missing |
| Groups.FindParticipant | wa-helper.js:243 | the caller's record is the first participant with the caller's id |
| Groups.Targets | wa-helper.js:271-273 | the targets never include the caller, and they include every other participant's id |
| Groups.TargetsKeepOrder | wa-helper.js:271-273 | the targets keep the participants' order |
| Groups.TargetsCount | wa-helper.js:271-273 | the number of targets is the number of participants minus the caller's records |
| Groups.MemberInfos | wa-helper.js:228-232 | one entry per participant, in order; admin exactly when admin or super-admin; the name falls back to `pushname` |
| Groups.ListGroupParticipants | wa-helper.js:223-233 | `null` exactly when the query does not resolve to a group chat; otherwise that group's participants |
| Groups.AdminGate | wa-helper.js:239-246 | "Group not found" exactly when the chat is missing or not a group; passes exactly when the caller's first record is admin or super-admin |
| Groups.RemoveGroupParticipant | wa-helper.js:238-255 | a removal call is made exactly when the gate passes, and it names only that participant; success exactly when that call succeeds; a failed call answers "Failed to remove participant" |
| Groups.RemoveAllParticipants | wa-helper.js:260-284 | once the gate passes, exactly one removal call of the non-caller targets in order whenever there are any, and none otherwise (`removed: []`); a failed call answers "Failed to remove participants"; gate refusals pass through |
| Groups.NonAdminRemovesNothing | wa-helper.js:265-268 | a caller who is absent or not an admin is refused by both removals, and no removal call is made |
| Groups.AloneInGroup | wa-helper.js:275 | an admin alone in the group gets success with `removed: []` and no call |
| Sanitizer.NormalizeMime | wa-helper.js:117 | `application/mp4` becomes `video/mp4`; every other type is kept; membership in the video list is unchanged |
| Sanitizer.IsAllowed | wa-helper.js:119-127 | a `video/` type is checked against the video list, an `audio/` type against the audio list, and any other type against the document list; an accepted type is always listed |
| Sanitizer.Acceptable | wa-helper.js:119-131 | accepted exactly when the type is listed (other than `application/mp4`) and the size is at most 64 MiB |
| Sanitizer.ConversionFor | wa-helper.js:85-115 | only WebM and the WAV family are converted, to `.mp4`/`video/mp4` and `.mp3`/`audio/mpeg`; a converted type never triggers a second conversion |
| Sanitizer.ListedPrefixes | wa-helper.js:13-27 | every listed type except `application/mp4` has its list's prefix; the document type has neither prefix |
| Sanitizer.AllowedIff | wa-helper.js:119-128 | the prefix-selected check accepts exactly the listed types, minus `application/mp4` |
| Sanitizer.NormalizedAllowedIff | wa-helper.js:117-128 | after normalisation, the check is membership in the union of the three lists |
| Sanitizer.CeilingIsInclusive | wa-helper.js:131 | exactly 64 MiB is accepted; one byte more is rejected |
| Sanitizer.ExtensionStart | wa-helper.js:46 | finds where `\.[^/.]+$` matches, and reports no match exactly when there is none |
| Sanitizer.ExtensionIsUnique | wa-helper.js:46 | the extension regex matches in at most one place |
| Sanitizer.OutputPath | wa-helper.js:46 | the trailing extension is replaced by the new one; a path without one is returned unchanged |
| Sanitizer.OutputPathDiffers | wa-helper.js:46 | the output is a new path with the same prefix unless the input already has the target extension |
| Sanitizer.NoDotNoExtension | wa-helper.js:46 | a path without a dot is its own output path |
| Sanitizer.ClipExample | wa-helper.js:46 | `/tmp/clip.webm` becomes `/tmp/clip.mp4` |
| Sanitizer.DottedDirectoryExample | wa-helper.js:46 | a dot in a directory name is not an extension |
| Sanitizer.Sanitize | wa-helper.js:78-137 | at most one temp file, and only from a conversion that succeeded; an unknown type is rejected with no temp files; an accepted file passes the allow-list and the ceiling |
| Sanitizer.UnconvertedOutcome | wa-helper.js:117-136 | without a conversion, the original path is accepted exactly when its type is listed and its size is within the ceiling |
| Sanitizer.WebmOutcome | wa-helper.js:86-100 | a failed WebM conversion rejects with no temp files; a successful one returns the `.mp4` path as a temp file and is accepted as `video/mp4` exactly when that file fits |
| Sanitizer.WavOutcome | wa-helper.js:103-115 | the same for the WAV family, with `.mp3` and `audio/mpeg` |
| Sanitizer.OversizeRejected | wa-helper.js:130-134 | when the one file that is measured (the conversion output, or else the input) is over the ceiling, the file is rejected |
| Helper.InfoOf | wa-helper.js:128-136 | a rejection nulls `media`, `file` and `mimeType` but keeps `tempFiles`; an acceptance reports the decided file (the original path when nothing was converted) and the final type, with the media read from that file |
| Helper.Dispatch | wa-helper.js:196-205 | the message is media, with the text as caption, exactly when a non-empty path was given, a file exists there and the sanitiser accepts it; the media is read from the file the sanitiser returns (the converted one if any); the document flag means the path contains `.pdf`; otherwise it is the text alone |
| Helper.InputSurvives | wa-helper.js:193-214 | the façade leaves its input in place when the input's extension differs from the conversion target's |
| Helper.DotlessInputConsumed | wa-helper.js:46-64 | an input without a dot is its own conversion output and is gone after a façade call that converts it |
| Helper.Helper.constructor | wa-helper.js:30 | the ledger and the outbox start empty |
| Helper.Helper.ConvertFile | wa-helper.js:44-69 | the derived path is appended to the ledger before conversion; on success the file exists; on failure nothing is left at that path |
| Helper.Helper.DetectAndConvertMedia | wa-helper.js:78-137 | the result is the `Sanitize` decision; the ledger and the files change only for the one conversion it may run |
| Helper.Helper.DeleteExisting | wa-helper.js:208-213 | every listed non-empty path is gone afterwards, and no other file is touched |
| Helper.Helper.SendMessageWithOptionalMedia | wa-helper.js:193-215 | exactly one send, as `Dispatch` says; whether or not the send throws, the temp files no longer exist; the files differ from before only by the conversion output |
| Helper.Helper.CleanupTempFiles | wa-helper.js:31-39 | afterwards the ledger is empty, no path from it still exists, and every other file is as before |

## Left out

- ffmpeg transcoding (wa-helper.js:48-67): codecs, formats and options are not modelled. The transcoder is a boolean input. On success the output file exists; on failure it does not.
- `mime.lookup`, `fs.statSync` and `MessageMedia.fromFilePath` are library and filesystem calls. The looked-up type and the size of each file are inputs. The media value records only the path it was read from.
- Helper.Helper.DetectAndConvertMedia: requires the input file to exist. Otherwise `fs.statSync` would throw. The one caller, the façade, checks existence first.
- Helper.Helper.SendMessageWithOptionalMedia: `fs.statSync` and `MessageMedia.fromFilePath` never throw in the model. In the source, such a throw after a successful conversion leaves the converted file on disk, because the local temp list is filled only after `detectAndConvertMedia` returns (wa-helper.js:197-198). The clause on the new file set does not cover that exit.
- Deleting a file always succeeds. `unlinkSync` failures are caught and logged in the source; the model does not produce them.
- The whatsapp-web.js client (`getChats`, `getChatById`, `sendMessage`, `removeParticipants`, `info.wid`) is foreign code. The model takes its results as inputs and records its calls. `getChatById` is a total function from chat id to participants.
- A `null`/`undefined` query (`query || ""`) is not modelled. The query is always a string, and the source treats the missing case as an empty string.
- Process hooks (`process.on("exit")`, `SIGINT`) and all `console` logging are runtime plumbing.
- async interleaving is not modelled. Each call runs to completion, so concurrent requests sharing the ledger are out of scope.
- `toLowerCase` is ASCII-only. `trim` covers ASCII white space, the line terminators, NBSP and BOM, but not the other Unicode space separators.
- whatsapp-send.js is not part of this model. It holds the HTTP routes, the readiness flag and the JSON responses, and it only delegates to the helper.
- process_pdf.py is not part of this model. It is a command-line file copy.
