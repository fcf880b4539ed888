# Verification of remotedisplay's session logic

A Dafny model of the parts of remotedisplay (a RustDesk-based remote desktop with its own iPad
client) whose correctness rests on more than one function, with proofs of what they promise over
every input or every run. `dafny verify dfyconfig.toml` checks all of it.

| module | part of the system |
|---|---|
| `Base64Url`, `Text`, `LicenceJson`, `LicenceName`, `LicenceDashes`, `LicenceHeads`, `LicenceParts`, `LicenceRoundTrip`, `LicenceLimits`, `LicencePieces`, `HostForm` | the server configuration a renamed executable carries in its file name |
| `Clipboard`, `ClipboardSync` | clipboard items on the wire, and the owner-marker protocol between machines |
| `AudioBuffer`, `AudioRuns`, `AudioFrames` | the playback ring and its occupancy histogram |
| `VideoThread`, `VideoRuns` | decoder supervision, size recovery, unusable codecs |
| `SessionOptions`, `PasswordOrigin`, `PeerIdentity` | `LoginConfigHandler`: option messages, where a password came from, identities in peer files |
| `ExternalDisplay`, `ExternalDisplayRuns`, `ExternalDisplayController` | the iPad's external monitor |
| `ScrollWheel`, `HttpRetry`, `UdpPunch` | scroll accumulator, TLS retry search, hole-punch back-off |

Where the source updates fields or variables step by step, the model is a class or a method with
loops, proved equal to a function on values; the laws are then proved about that function, step by
step and over whole runs. Concurrency (display threads, machines exchanging clipboards, delayed
closures, the audio callback) is a state machine whose steps may interleave in any order.

Foreign code is a parameter with only the laws that are used: the JSON reader and the signature
check (`LicenceName.Lawful`; the printer is modelled byte for byte), the compressor and the UTF-8 check (`Clipboard.Lawful`), SHA-256 (no law),
the decoder, the network, the clock, the system's answers about screens. Text is ASCII: letter case
and white space follow the ASCII rules. Audio samples are an arbitrary type; scroll positions are
reals.

## What turned out not to hold as it reads

Each comes with the exact condition and with an input that shows it.

- A printed licence does not come back if two dashes meet in its name. They meet if and only if a
  group of three bytes of the JSON text is `Dashed` (`LicenceDashes.DashesMeetExactly`), never in
  ASCII; the reader sees the name whole exactly otherwise (`LicenceLimits.NameStaysWhole`), and then
  the licence comes back (`LicenceRoundTrip.EncodedRoundTrip`). Else the result is what the pieces
  between two cuts come to, nothing with a single cut (`LicencePieces.SplitNameLost`): the document
  `{"key":"ac！",…}` is lost (`LicencePieces.FullWidthLost`).
- The name of any other document the reader takes, one with a signature in front above all, may hold
  `--` or `-licensed-` anywhere. It comes back (`LicenceRoundTrip.DocumentRoundTrip`,
  `LicenceRoundTrip.SignedRoundTrip`) if it can be seen whole, and it can if and only if neither begins
  in it, the dash of a following comment included (`LicenceRoundTrip.SeenExactly`).
- The name `naming.rs` prints, with `rustdesk-custom_serverd-` in front, gives no licence either unless
  a piece between two cuts happens to be one: never for a name cut at most once, all ASCII licences
  among them (`LicencePieces.PrintedNameUnreadable`). The round trip is for the heads of the reader's
  own tests.
- The plain form gives back only the fields from the first `host=` on. All of them come back if and
  only if nothing in front of it counts, and, where no comma follows, the last value does not end in
  `.exe` or the extension is doubled (`HostForm.ClosedForm`, `HostForm.OpenForm`).
  `rustdesk-key=b,host=h,.exe` gives an empty key (`HostForm.KeyFirstIsLost`).
- An uncompressed special clipboard item is sent with its name in place of its data, a failed
  compression loses any item, and a picture side of 2^31 or more changes
  (`Clipboard.ListRoundTrip` gives the exact condition).
- The histogram scan clears bucket 0 before comparing with it, so the most frequent bucket is found
  only among the others (`AudioBuffer.IsPeak`). It does no harm: with bucket 0 in use nothing is
  dropped (`AudioRuns.LowReadingKeeps`).
- With more than two channels a drop can tear a frame. Over the runs the code can make, packets each
  recorded at the occupancy it leaves, none is torn if and only if every drop that two occupancies of
  whole frames lead to is whole (`AudioFrames.FramesKeptExactly`), a finite test of the rate
  (`AudioFrames.FramesKeptByMarks`); packets of a single frame are enough for the tear. 48 kHz is safe,
  six channels at 11025 or 44100 Hz are not (`AudioFrames.EightiesKeepFrames`,
  `AudioFrames.SixChannelsTear`).
- A toggle of an option view-only governs, or of the own cursor, tells the host something a new
  login would not, exactly when it is not `Harmless` (`SessionOptions.ToggleAgrees`).
- A shared password is filed and reported after all if and only if some login met it remembered and
  no longer recognised, its source wiped by a switch of sides or the host's salt changed
  (`PasswordOrigin.SharedLeavesExactly`). The salt does it with a stored password, a shared one, and a
  second connection that the host lets in, by a click for instance
  (`PasswordOrigin.SaltFilesShared`). The switch needs a session asked for with a connection token and a switch uuid at once (`PasswordOrigin.SwitchFilesShared`): `session_add` takes both, but no
  Dart caller passes both, and without such a session only the salt does it
  (`PasswordOrigin.OnlyAnotherSalt`).
- A wanted external window has its accessory enabled if and only if the last attach that took effect
  met no scene, or an accessory still enabled (`ExternalDisplay.EnabledIffAttachedSo`). Two short runs
  show a window without it (`ExternalDisplay.WantedYetDisabled`).
- After any callbacks whatever, a scroll gesture sends nothing if and only if no callback that was acted
  on found it a quantum away from its origin, and its last callback was ignored, found no translation,
  or met the flag up (`ScrollWheel.GestureSends`). Origin and flag are the gesture's own unless its first
  callback was ignored; then they are left over from before, and a gesture can be lost
  (`ScrollWheel.StaleFlag`), even one that ends more than a quantum away (`ScrollWheel.StaleOrigin`).

## Model

| member | source | states |
|---|---|---|
| `Base64Url.DecodeEncode` | engine/rustdesk/src/naming.rs:5-8 | decoding undoes encoding for every byte string (section 5 of RFC 4648, no padding) |
| `Base64Url.EncodeDecode` | engine/rustdesk/src/custom_server.rs:28 | the strict decoder accepts a string only if it is the canonical encoding of what it returns |
| `Base64Url.DashPositions` | engine/rustdesk/src/naming.rs:6 | ASCII bytes put the symbol `-` at positions 3 modulo 4 only |
| `Base64Url.LastSymbol` | engine/rustdesk/src/naming.rs:6 | a JSON object's encoding ends in one of three symbols, never in `-` or `l` |
| `Base64Url.LastByte` | engine/rustdesk/src/custom_server.rs:28 | which lengths and trailing bits the decoder refuses, and the last byte of what it accepts |
| `LicenceJson.JsonMeans` | engine/rustdesk/src/naming.rs:6 | a printed document, read by the rules of JSON (section 7 of RFC 8259) and UTF-8, holds the four values under their names in the order of declaration |
| `LicenceJson.JsonInjective` | engine/rustdesk/src/naming.rs:6 | different licences print different documents, whatever characters their fields hold |
| `LicenceJson.JsonShaped` | engine/rustdesk/src/naming.rs:6 | every printed document is UTF-8 |
| `LicenceJson.SuffixIsNoDocument` | engine/rustdesk/src/naming.rs:6 | no proper suffix of a printed document is a printed document |
| `LicenceName.LawsCanBeMet` | engine/rustdesk/src/custom_server.rs:29-36 | the laws assumed of the JSON reader and the signature check are consistent |
| `LicenceDashes.DashesMeetExactly` | engine/rustdesk/src/naming.rs:5-8 | two dashes meet in the printed name of a UTF-8 text if and only if one of its groups of three bytes is dashed |
| `LicenceDashes.NeverLicensed` | engine/rustdesk/src/custom_server.rs:89-92 | the printed name of a UTF-8 text never contains `-licensed-`: it would need a broken UTF-8 sequence |
| `LicenceName.ReadHostFields` | engine/rustdesk/src/custom_server.rs:61-87 | the loop gives each field the value of the last element with its tag, in any letter case |
| `LicenceName.ReadPieces` | engine/rustdesk/src/custom_server.rs:99-103 | the loop over the pieces between parentheses returns the first licence among them |
| `LicenceName.ReadTokens` | engine/rustdesk/src/custom_server.rs:94-105 | the nested loops return the first licence among all candidates of all tokens, or none |
| `LicenceName.GetCustomServerFromString` | engine/rustdesk/src/custom_server.rs:39-108 | the loops compute `ParseName`, whose results the round trips below fix, signed licences and the error case included |
| `LicenceRoundTrip.GenNamePlain` | engine/rustdesk/src/naming.rs:5-8 | a printed name has everything the reader depends on if and only if no two dashes meet in it |
| `LicenceHeads.ReducedBehind` | engine/rustdesk/src/custom_server.rs:89-92 | the three replacements, longest first, leave exactly one `--` whichever pattern stands in the head, keep whatever can be seen whole behind it, and open the rest with `--` |
| `LicenceRoundTrip.SeenExactly` | engine/rustdesk/src/custom_server.rs:89-95 | behind any head and before any comment, a text is a token of its own if and only if neither `--` nor `-licensed-` begins in it |
| `LicenceParts.ProgramNameIsNoLicence` | engine/rustdesk/src/custom_server.rs:95 | neither the program's own name nor anything that starts like it is taken for a licence, signed or not |
| `LicenceRoundTrip.DressedToken` | engine/rustdesk/src/custom_server.rs:95-104 | blanks around a name and copy marks `(n)` behind it leave the licence as the first one found |
| `LicenceRoundTrip.DocumentRoundTrip` | engine/rustdesk/src/custom_server.rs:21-108 | every document the JSON reader takes, whoever wrote it, comes back from its name: all heads, blanks, copy marks, comments, extensions, if the name can be seen whole |
| `LicenceRoundTrip.SignedRoundTrip` | engine/rustdesk/src/custom_server.rs:29-36 | a licence with a valid signature in front comes back from its name, under the same variations |
| `LicenceRoundTrip.ReadsExactly` | engine/rustdesk/src/custom_server.rs:21-36 | a name seen whole gives what its bytes are: the document they are, else the one a valid signature stands before, else nothing |
| `LicenceRoundTrip.SignaturesCanBeMet` | engine/rustdesk/src/custom_server.rs:32-36 | signed licences and a reader that takes them exist under the laws assumed |
| `LicenceRoundTrip.EncodedRoundTrip` | engine/rustdesk/src/custom_server.rs:39-108 | every licence, in any characters, in whose name no two dashes meet comes back exactly: all four heads, any blanks around it, any run of copy marks, any comment without `host=`, any extension and letter case |
| `LicenceRoundTrip.AsciiRoundTrip` | engine/rustdesk/src/custom_server.rs:110-218 | every ASCII licence comes back exactly, under the same variations |
| `LicenceLimits.NameStaysWhole` | engine/rustdesk/src/custom_server.rs:89-95 | behind any head the reader tries the printed name as a whole if and only if no two dashes meet in it |
| `LicencePieces.SplitNameLost` | engine/rustdesk/src/custom_server.rs:89-107 | for every licence: it comes back if no two dashes meet in its printed name, else the result is what the pieces between two cuts come to, nothing with a single cut, wherever it is |
| `LicencePieces.OuterPieces` | engine/rustdesk/src/custom_server.rs:21-36 | of a name cut where dashes meet, neither the first nor the last piece is ever a licence: a symbol too many, bits left over, or the end of a document |
| `LicencePieces.FullWidthLost` | engine/rustdesk/src/custom_server.rs:39-108 | a real document with a full-width character is lost, behind every head and behind the generator's prefix |
| `LicencePieces.PrintedNameUnreadable` | engine/rustdesk/src/naming.rs:21 | for every licence: the name the generator prints, prefix included, gives what the pieces between two cuts come to, nothing for a name cut at most once |
| `LicenceLimits.PrintedNameDecodes` | engine/rustdesk/src/naming.rs:21 | its text decodes to nothing, or to the document followed by 18 bytes, exactly when the document's length is a multiple of three |
| `HostForm.ClosedForm` | engine/rustdesk/src/custom_server.rs:47-87 | with a final comma the fields from the first `host=` on come back, any order, letter case and extension, the last of a kind winning, an unrecognised last element ignored; all of them if and only if nothing that counts stands in front |
| `HostForm.OpenForm` | engine/rustdesk/src/custom_server.rs:40-87 | without a final comma all fields come back if and only if nothing that counts stands in front of the first `host=`, and the last value does not end in `.exe` or the extension is doubled |
| `HostForm.KeyFirstIsLost` | engine/rustdesk/src/custom_server.rs:59-61 | a key in front of the host is lost |
| `Clipboard.SizeSurvives` | engine/rustdesk/src/clipboard.rs:643-644 | a picture side survives the cast to `int32` and back if and only if it is below 2^31 (or within 2^31 of the word size) |
| `Clipboard.ItemSays` | engine/rustdesk/src/clipboard.rs:613-700 | which kinds are sent, and that only pixels carry a size, only special kinds a name, and a PNG is never compressed again |
| `Clipboard.ItemRoundTrip` | engine/rustdesk/src/clipboard.rs:613-741 | every supported item decodes to something, and to itself if and only if it is `Faithful` |
| `Clipboard.ListRoundTrip` | engine/rustdesk/src/clipboard.rs:704-749 | a list comes back in order without unsupported kinds if and only if each supported item is faithful |
| `ClipboardSync.AppendOwnerMarker` | engine/rustdesk/src/clipboard.rs:263-269 | what a machine writes is what it received, in full and in order, and one marker behind it |
| `ClipboardSync.ReadsNothing` | engine/rustdesk/src/clipboard.rs:379-408 | nothing is read if and only if the clipboard holds an owner marker with a low bit set (and the read is not forced), or a file, or nothing but empty texts, markers and absent kinds |
| `ClipboardSync.ReadsAll` | engine/rustdesk/src/clipboard.rs:379-408 | else exactly the elements that travel are read, each once and in their order |
| `ClipboardSync.NoticeSends` | engine/rustdesk/src/clipboard.rs:379-408 | a change event makes a machine send only if its clipboard carries no marker |
| `ClipboardSync.DeliverDecreases` | engine/rustdesk/src/clipboard.rs:230-260 | a delivery strictly decreases the traffic measure, whatever was pending at the receiver |
| `ClipboardSync.TrafficDiesOut` | engine/rustdesk/src/clipboard.rs:239-408 | once users stop copying, no interleaving over any number of machines is longer than the initial measure |
| `ClipboardSync.OnlyCopiesTravel` | engine/rustdesk/src/clipboard.rs:239-408 | in every reachable state each message under way carries what a user of its sender copied, and delivers it if the wire is faithful |
| `ClipboardSync.CopyArrives` | engine/rustdesk/src/clipboard.rs:239-408 | in any state, a copy that is noticed and delivered leaves the receiver with exactly the elements of the copy that travel, in order, then the marker of its side, `[1]` or `[2]`; its own event then sends nothing |
| `AudioBuffer.ScanHistogram` | engine/rustdesk/src/client.rs:1254-1276 | one in-place pass finds the lowest used bucket and the first fullest one and leaves the histogram zero |
| `AudioBuffer.DroppableBound` | engine/rustdesk/src/client.rs:1270-1286 | in integer arithmetic, the amount is at most two thirds of any occupancy at or above the lowest used bucket, plus one |
| `AudioBuffer.AudioBuffer.Resize` | engine/rustdesk/src/client.rs:1221-1229 | capacity stays three times the rate, and the stored rate is the requested one even when the update is skipped |
| `AudioBuffer.AudioBuffer.PushSliceOverwrite` | engine/rustdesk/src/client.rs:1300-1308 | an overwriting push leaves the newest samples that fit, however long the input |
| `AudioBuffer.AudioBuffer.AppendPcm2` | engine/rustdesk/src/client.rs:1296-1310 | each append leaves the last min(capacity, old + new) samples and returns how many |
| `AudioBuffer.AudioBuffer.EndWindow` | engine/rustdesk/src/client.rs:1254-1290 | scan, clear and drop by the two marks, or keep everything |
| `AudioBuffer.AudioBuffer.TryShrink` | engine/rustdesk/src/client.rs:1231-1291 | record, and at the end of a window evaluate, clear and drop, with the shared time mark |
| `AudioBuffer.AudioBuffer.AppendPcm` | engine/rustdesk/src/client.rs:1315-1318 | append followed by shrink on the resulting occupancy |
| `AudioBuffer.AudioBuffer.PopSlice` | engine/rustdesk/src/client.rs:1491-1524 | playback takes the oldest samples, at most those held |
| `AudioRuns.Conservation` | engine/rustdesk/src/client.rs:1231-1318 | over every run without a resize, what left in order followed by what is held is what was held followed by what was fed |
| `AudioRuns.ShrinkIsSafe` | engine/rustdesk/src/client.rs:1231-1291 | after any history a drop is even, leaves more than two thirds, is at most two thirds of every occupancy its window recorded plus one, and an evaluation zeroes the histogram |
| `AudioRuns.LowReadingKeeps` | engine/rustdesk/src/client.rs:1254-1290 | after any history, one reading below a tenth of a second in the window keeps everything |
| `AudioRuns.TwelveSeconds` | engine/rustdesk/src/client.rs:1231-1254 | a window ends twelve seconds after its mark and not before; until then nothing is dropped and every occupancy recorded |
| `AudioRuns.RateFollows` | engine/rustdesk/src/client.rs:1221-1229 | over every run there is room for three seconds at the rate asked for last; another rate empties the buffer, the same one changes nothing |
| `AudioRuns.WholeFrames` | engine/rustdesk/src/client.rs:1221-1310 | with one or two channels the buffer always holds whole frames |
| `AudioFrames.FramesKeptExactly` | engine/rustdesk/src/client.rs:1231-1318 | for any rate, number of channels and packet size: every run the code can make, packets each recorded at the occupancy they leave, keeps whole frames if and only if every drop that two occupancies of whole frames can lead to is whole |
| `AudioFrames.FramesKeptByMarks` | engine/rustdesk/src/client.rs:1270-1286 | the same as a finite test of the rate, one number for each of 25 marks, from ten frames a second on |
| `AudioFrames.Sweep` | engine/rustdesk/src/client.rs:1231-1318 | a run of one-frame packets from any occupancy to an evaluation by any two occupancies, one above the other |
| `AudioFrames.EightiesKeepFrames` | engine/rustdesk/src/client.rs:1284-1290 | rates divisible by 80, 48 kHz among them, never tear a frame, with any number of channels |
| `AudioFrames.SixChannelsTear` | engine/rustdesk/src/client.rs:1284-1290 | six channels tear frames at 11025 and 44100 Hz and not at 48000 |
| `VideoThread.VideoHandler.HandleFrame` | engine/rustdesk/src/client.rs:1590-1640 | after every frame the counter is the closed form of the answers since the decoder was created, which grow by this frame's answer or start anew with another codec; the result is a picture exactly if one was decoded |
| `VideoThread.VideoHandler.Reset` | engine/rustdesk/src/client.rs:1643-1655 | a reset decoder is fresh, in the given format or its old one |
| `VideoThread.ReceiveAll` | engine/rustdesk/src/client.rs:2944-3107 | over everything it receives the loop makes the requests `RequestExactly` describes and the findings `UnusableExactly` describes |
| `VideoRuns.CounterClosedForm` | engine/rustdesk/src/client.rs:1609-1625 | over every run the failure counter is the trailing failures since the decoder was created, plus two if nothing was ever decoded, saturated |
| `VideoRuns.UnusableExactly` | engine/rustdesk/src/client.rs:3068-3073 | over every run a frame finds its codec unusable if and only if the decoder is invalid, failed three times in a row, or was given coded frames and never gave a picture |
| `VideoRuns.RecreatesExactly` | engine/rustdesk/src/client.rs:2987-2999 | a new decoder is made exactly at a reset, for the first frame, for another codec, and for a key frame while a request is open |
| `VideoRuns.RecoveryNeverMarks` | engine/rustdesk/src/client.rs:2987-3082 | if the recovered decoder decodes its key frame, the recovery itself never marks a codec; later it takes exactly three failures in a row |
| `VideoRuns.PlainResetMarks` | engine/rustdesk/src/client.rs:3070-3095 | any new decoder, first, for another codec or after a plain reset, gives its codec up if the first coded frame it is given cannot be decoded |
| `VideoRuns.RequestsAreSpaced` | engine/rustdesk/src/client.rs:3016-3028 | any two size-mismatch requests of a run are at least five seconds apart |
| `VideoRuns.RequestIsJustified` | engine/rustdesk/src/client.rs:3009-3028 | each request ends at least one second of refusals with no accepted picture or new decoder in between, and is the only one outstanding |
| `VideoRuns.RequestExactly` | engine/rustdesk/src/client.rs:3009-3028 | over every run a key frame is asked for if and only if a picture in memory is refused for the fifth time or more, no request is open, the refusals have lasted one second, and the last request was noted five seconds ago or more |
| `VideoRuns.Session.MarkUnsupported` | engine/rustdesk/src/client.rs:3074-3081 | under the lock the list stays free of repeats and only grows, by the codec found if it is new, and exactly then the finder owes an announcement |
| `VideoRuns.OneAnnouncementPerCodec` | engine/rustdesk/src/client.rs:3068-3087 | over every interleaving of display threads the list has no duplicates, one announcement is sent per codec, and the last one is complete |
| `VideoRuns.ListedExactly` | engine/rustdesk/src/client.rs:3068-3081 | over every interleaving the list holds the codecs some thread found unusable, and no other |
| `SessionOptions.LoginConfigHandler.ToggleOption` | engine/rustdesk/src/client.rs:2077-2222 | the saved configuration and the message of every toggle, memory and file kept equal |
| `SessionOptions.LikeLoginByField` | engine/rustdesk/src/client.rs:2279-2306 | field by field, what a login leaves a host with |
| `SessionOptions.ToggleAgrees` | engine/rustdesk/src/client.rs:2077-2309 | a toggle leaves the host where a new login would if and only if it is harmless |
| `SessionOptions.HarmlessSession` | engine/rustdesk/src/client.rs:2077-2309 | folding the messages of any harmless session onto the login message gives a new login's options |
| `SessionOptions.FirstHarm` | engine/rustdesk/src/client.rs:2160-2193 | the first harmful toggle of a session breaks the agreement |
| `SessionOptions.ToggledLikeLogin` | engine/rustdesk/src/client.rs:2077-2309 | governed options toggled only outside view-only and the own cursor only inside keep the agreement, and the own cursor implies view-only |
| `SessionOptions.FlagParity` | engine/rustdesk/src/client.rs:2077-2204 | over every session a switch has changed sides if and only if it was toggled an odd number of times; privacy mode never moves |
| `SessionOptions.OptionParity` | engine/rustdesk/src/client.rs:2195-2208 | over every session any other option is set to `Y` or removed in turn, and one not toggled keeps its value |
| `SessionOptions.OtherFieldsFollow` | engine/rustdesk/src/client.rs:2136-2155 | over every session the fields a login does not send: input blocked as last said, privacy mode asked for if toggled and not on, a terminal kept as last toggled |
| `SessionOptions.WhoIsTold` | engine/rustdesk/src/client.rs:2077-2309 | only other options send no message, and which connections get none at login |
| `PasswordOrigin.StepTruthful` | engine/rustdesk/src/client.rs:3530-3816 | whatever handler runs next, with whatever salt, the password in use is what its origin stands for, and the source tells that origin unless a switch of sides wiped it |
| `PasswordOrigin.HashOrder` | engine/rustdesk/src/client.rs:3614-3693 | the order of choice: a pending shared password, the last used, a preset one, the file's, the personal address book's, the built-in one |
| `PasswordOrigin.OriginExactly` | engine/rustdesk/src/client.rs:3530-3816 | every other event: a typed password replaces the one in use, a refused one goes, a new session keeps the last only with a connection token; and whether the password will be remembered |
| `PasswordOrigin.HashTakes` | engine/rustdesk/src/client.rs:3621-3666 | a hash takes the switch uuid and the pending password, which a switch of sides leaves |
| `PasswordOrigin.AgainAsks` | engine/rustdesk/src/client.rs:1792-1879 | a session begins with the password, shared or preset, and the uuid it was asked for with, and leaves the file alone |
| `PasswordOrigin.FileAfterLogin` | engine/rustdesk/src/client.rs:2555-2609 | after any run a login leaves in the file the password its origin stands for if remembered and not known to be shared, else keeps or clears it, reports it unless known to be shared or personal, and changes nothing else |
| `PasswordOrigin.SharedStaysShared` | engine/rustdesk/src/client.rs:1692-1723 | over every run with one salt and no switch of sides, reconnections included, no shared or built-in password is filed or synchronised |
| `PasswordOrigin.FiledExactly` | engine/rustdesk/src/client.rs:2555-2575 | after any run, a login newly files a shared password if and only if it is remembered, not stored yet, and its source was wiped or the salt it was hashed with is not the host's any more |
| `PasswordOrigin.SharedLeavesExactly` | engine/rustdesk/src/client.rs:2555-2609 | over every run, any salts and switches: a shared or built-in password is reported to the personal address book if and only if some login of the run filed it unrecognised, and none is in the file before that |
| `PasswordOrigin.SaltFilesShared` | engine/rustdesk/src/client.rs:3655-3691 | a real session: stored password, shared password, the host's salt changed between two connections; the shared password is filed and reported |
| `PasswordOrigin.SwitchFilesShared` | engine/rustdesk/src/client.rs:3624-3640 | a session asked for with a connection token and a switch uuid at once files the shared password |
| `PasswordOrigin.OnlyAnotherSalt` | engine/rustdesk/src/client.rs:1845-1879 | over every run in which no session is asked for with both, only a changed salt can make a login file a shared password |
| `PasswordOrigin.LoginConfigHandler.Handle` | engine/rustdesk/src/client.rs:1792-1879 | the object does on every event what the rows above say of the step function, and stays truthful |
| `PeerIdentity.PeerStore.SpreadIdentity` | engine/rustdesk/src/client.rs:2643-2681 | the loop files a complete identity under every named address that is nobody's or this machine's, whatever their order and repetition, and writes nothing if and only if nothing changes |
| `PeerIdentity.SpreadReaches` | engine/rustdesk/src/client.rs:2643-2681 | address by address: a free one that is named gets the whole identity and keeps the rest of its file, every other file stays, and an incomplete identity goes nowhere |
| `PeerIdentity.LoginFiles` | engine/rustdesk/src/client.rs:2538-2681 | a login leaves identity and password in the address's own file, and the identity at every other free address it names |
| `PeerIdentity.LoginsElsewhere` | engine/rustdesk/src/client.rs:2538-2681 | over every sequence of logins at other addresses a file keeps its password and the rest, and once a machine's stays that machine's |
| `PeerIdentity.SpreadTwice` | engine/rustdesk/src/client.rs:2643-2681 | spreading an identity again changes nothing |
| `ExternalDisplay.StepKeeps` | client/ios/Runner/ExternalDisplayController.swift:68-315 | every call, scene event, presence change, closure and the release keep the whole invariant |
| `ExternalDisplay.EveryReachableState` | client/ios/Runner/ExternalDisplayController.swift:135-315 | in every run: engine, window and channel together and only if wanted; each engine live, awaiting one destroy closure or destroyed; an enabled unwanted accessory has a disabling closure queued; each `screenSize` call queued or answered once; each event the opposite of the last value told |
| `ExternalDisplay.NeverDisabledWhileWanted` | client/ios/Runner/ExternalDisplayController.swift:289-304 | no step of any run disables the accessory while the window is wanted |
| `ExternalDisplay.EnabledIffAttachedSo` | client/ios/Runner/ExternalDisplayController.swift:228-304 | over every run a wanted window has its accessory enabled if and only if the last attach that took effect met no scene, or an accessory still enabled |
| `ExternalDisplay.AllCallsAnswered` | client/ios/Runner/ExternalDisplayController.swift:75-88 | with no flushing closure queued, every call has been answered exactly once |
| `ExternalDisplay.NothingLeftOver` | client/ios/Runner/ExternalDisplayController.swift:289-315 | once the window is not wanted and all closures have run: every engine destroyed exactly once, every call answered exactly once, the accessory disabled |
| `ExternalDisplay.SizeSettles` | client/ios/Runner/ExternalDisplayController.swift:75-88 | a `screenSize` call adds exactly one to the calls answered or queued, is queued if and only if the window is wanted and no screen found, and none is queued without a flushing closure |
| `ExternalDisplay.DisconnectLetsGo` | client/ios/Runner/ExternalDisplayController.swift:157-176 | the scene in use going away leaves no scene, window, engine or unanswered call, and Dart knowing whether the accessory is available, or without one whether there is a second screen; another scene's changes nothing |
| `ExternalDisplay.WantedYetDisabled` | client/ios/Runner/ExternalDisplayController.swift:135-236 | two runs from the start that show a window with the accessory disabled: attaching to an adopted scene, and attaching again before a detached scene is gone |
| `ExternalDisplayRuns.RunFits` | client/ios/Runner/ExternalDisplayController.swift:68-304 | until it is released the controller is after every run what the inputs alone come to: the scene, whether the window is wanted and open, whether the accessory is enabled, which calls wait and in which order |
| `ExternalDisplayRuns.PresenceTruth` | client/ios/Runner/ExternalDisplayController.swift:157-201 | in every run every reply and every pushed event, in order: the accessory's availability if one is registered, else that a scene is at hand after the step or there is a second screen; pushed only where it differs from the last value told |
| `ExternalDisplayController.Controller.FlushPendingScreenSize` | client/ios/Runner/ExternalDisplayController.swift:218-224 | the loop answers every queued call once and empties the queue |
| `ExternalDisplayController.Controller.Handle` | client/ios/Runner/ExternalDisplayController.swift:68-176 | the object does on every input what the rows above say of the state machine, and keeps the invariant |
| `ScrollWheel.PointerCaptureBridge.ConsumeScroll` | client/ios/Runner/RunnerFlutterViewController.swift:153-159 | keeps the balance of the gesture: steps sent and remainder make up the translation, the remainder is below a quantum |
| `ScrollWheel.PointerCaptureBridge.OnScrollPan` | client/ios/Runner/RunnerFlutterViewController.swift:121-151 | a first callback leaves the gesture in balance, a last one leaves steps within a quantum of the translation and the accumulator at rest |
| `ScrollWheel.ConsumedBalanced` | client/ios/Runner/RunnerFlutterViewController.swift:153-171 | seven times the steps plus the remainder is always the translation, and the remainder is below seven |
| `ScrollWheel.GestureIsExact` | client/ios/Runner/RunnerFlutterViewController.swift:117-176 | from any state, a gesture's steps are within one quantum of its translation on each axis, forced step included, and a gesture that moved sends one |
| `ScrollWheel.GestureSends` | client/ios/Runner/RunnerFlutterViewController.swift:117-176 | after any callbacks whatever and whichever of its own are ignored: a gesture sends something if and only if one acted on finds it a quantum away from its origin, or the last is acted on after some movement with the flag down |
| `ScrollWheel.ShortGesture` | client/ios/Runner/RunnerFlutterViewController.swift:139-151 | a gesture that moved but never got a quantum away sends exactly one step, along its longer axis, the vertical one if equal, and in the direction of the translation |
| `ScrollWheel.AlwaysBounded` | client/ios/Runner/RunnerFlutterViewController.swift:117-176 | after any callbacks, in any order, less than a quantum is carried |
| `ScrollWheel.StaleFlag` | client/ios/Runner/RunnerFlutterViewController.swift:124-145 | two gestures from rest: the first sends a step, the second, its first callback ignored, is lost if it stays below a quantum |
| `ScrollWheel.StaleOrigin` | client/ios/Runner/RunnerFlutterViewController.swift:124-145 | two gestures from rest: with the last callback of the first and the first of the second ignored, the second is lost although it ends more than a quantum away |
| `HttpRetry.SameSearch` | engine/rustdesk/src/common.rs:1522-1624 | for an acceptable request the general version makes the attempts of the POST version, with the same result |
| `HttpRetry.PostFollowsPlan` | engine/rustdesk/src/common.rs:1432-1515 | the recursion is a walk along a plan fixed by the two cached values |
| `HttpRetry.SearchIsBounded` | engine/rustdesk/src/common.rs:1432-1624 | at most four attempts, no two alike, retried only after a failure to send, and exactly the successful last one cached |
| `HttpRetry.SuccessIsRemembered` | engine/rustdesk/libs/hbb_common/src/tls.rs:42-98 | after a success the next call to the domain is one attempt with the settings that worked; other domains are untouched |
| `HttpRetry.PlainIsOneAttempt` | engine/rustdesk/libs/hbb_common/src/tls.rs:42-98 | a plain URL is one attempt without TLS, and neither it nor a failed call touches the cache |
| `HttpRetry.NeverSent` | engine/rustdesk/src/common.rs:1537-1546 | a request with an unknown method or unreadable headers is never sent and leaves the cache alone |
| `HttpRetry.NeverInsecureWhenForbidden` | engine/rustdesk/libs/hbb_common/src/tls.rs:84-87 | with the insecure fallback off no attempt accepts an invalid certificate |
| `UdpPunch.IntervalGrows` | engine/rustdesk/src/common.rs:2552-2556 | the interval never shrinks and stays within 20 and 200 ms |
| `UdpPunch.IntervalSettles` | engine/rustdesk/src/common.rs:2552-2556 | from the sixth retry on it is 200 ms |
| `UdpPunch.PunchIsPaced` | engine/rustdesk/src/common.rs:2540-2575 | however the wake-ups fall, n packets (n at least 7) take at least 412 + 200(n - 7) ms, none after the cut-off, at most 104 |
| `UdpPunch.Reaches104` | engine/rustdesk/src/common.rs:2540-2575 | the bound of 104 is reached |
| `UdpPunch.OutcomeExactly` | engine/rustdesk/src/common.rs:2541-2573 | the first wake-up that decides anything, more than twenty seconds after the start, an error, or a datagram that counts, decides the outcome; without one it still waits |
| `UdpPunch.DueIsSent` | engine/rustdesk/src/common.rs:2541-2556 | after a wake-up that does not end the punching the last packet is younger than its interval: what is due is sent |
| `UdpPunch.SentAtWakes` | engine/rustdesk/src/common.rs:2541-2556 | every packet after the first goes out at a wake-up |
| `UdpPunch.OnWake` | engine/rustdesk/src/common.rs:2541-2573 | one turn of the loop: give up, send what is due and lengthen the interval, or stop on what was received |
| `UdpPunch.PunchUdp` | engine/rustdesk/src/common.rs:2526-2575 | the loop's outcome and packets for every sequence of wake-ups and datagrams |

## Left out

- File names with characters outside ASCII: Unicode lower-casing can change the length of the text the reader slices.
- The JSON reader and the signature check: parameters with the laws listed in `LicenceName.Lawful` and, where a name is cut, `LicenceName.ReadsNoSuffix`.
- LicencePieces.SplitNameLost: for names cut more than once it is left open what the JSON reader makes of a piece between two cuts.
- LicencePieces.PrintedNameUnreadable: the same.
- AudioFrames.FramesKeptExactly: for runs at one rate; with one or two channels `AudioRuns.WholeFrames` covers changes of rate.
- The restart of the clipboard loop thread (client.rs:943-1026), forced reads, file clipboards and the cached last clipboards: the protocol is modelled for non-forced reads.
- Update in place of the clipboard context and its locks: `ClipboardSync` is a state machine on values.
- The ring buffer's storage: `ringbuf` is a library; the model keeps its contents as a sequence.
- Refreshes asked for after a decoder error (client.rs:3062) and the server's own limit on refreshes.
- Recording, frame-rate statistics, chroma and the discarding of queued frames in the video thread.
- Image quality, frame rate and codec settings of the option message; connections other than the default in the agreement theorems.
- How `login_addrs` selects addresses, and which path a peer file is stored under.
- Deadlines of delayed closures: they may run at any later time and in any order; window geometry and screen modes.
- Mode changes and the pan, tap and mouse sources of the pointer bridge.
- Request bodies, headers and the TCP proxy fallback of the HTTP client.
- Several clock readings within one wake-up of `punch_udp`, and its termination while listening.
- Sockets, relays, KCP, encryption, two-factor login, administration scripts, build scripts, generated code and user interface: no invariant of their own, or foreign code.
- The renderer's own count of refused pictures: an input of the video thread.
