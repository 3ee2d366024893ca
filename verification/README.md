# Verified models of libdstr, libcrypto, libacme and libcitm

These modules model the parts of the Splintermail client libraries whose correctness is hard to see
from one function body: the streaming text transforms of libdstr, the encrypted message format of
libcrypto, the intrusive hash map, the certificate manager of libcitm with its swap of two files,
the watcher that decides about new-key alerts, and the status server.

Code that works in place is modelled by classes and by methods with loops (`Dstr`, `Encrypter`,
`Decrypter`, `Writer`, `Map`, `Traversal`, `Manager`, `Directory`, `Keydir`, `Server`).  Each such
method is proved equal to a function on values, or to a change of an abstract value, and the lemmas
state what the library promises about those.  State machines are functions `Step` over all events
that the outside can cause, and the main theorems are about every sequence of events.

| file | models |
|---|---|
| `Bytes.dfy` | byte strings and the buffers `dstr_t` |
| `Base64.dfy`, `Base64Writer.dfy`, `Base64Url.dfy` | the three base64 codecs |
| `Rfc4648.dfy`, `StandardText.dfy` | base64 as RFC 4648 has it, in arithmetic; the codecs agree with it |
| `Recode.dfy`, `FprFiles.dfy`, `FprAlerts.dfy` | search and replace; the watcher's files; its alerts |
| `Decimal.dfy`, `EnvelopeFormat.dfy`, `Encrypter.dfy`, `MetadataParser.dfy`, `Decrypter.dfy`, `EnvelopeRoundTrip.dfy`, `EnvelopeAccepts.dfy` | the message envelope: what is sent is received, and only envelopes are accepted |
| `HashMap.dfy`, `HashMapTraversal.dfy` | the hash map |
| `AcmeState.dfy`, `AcmeInvariants.dfy`, `AcmeManager.dfy` | the certificate manager, with its flags |
| `AcmePlan.dfy`, `AcmeProtocol.dfy`, `CertSwap.dfy` | the manager told simply, what it asks for in which order, and its swap of two files |
| `StatusServer.dfy`, `StatusClients.dfy`, `StatusCommands.dfy` | the status server; its clients and its end; which commands it leaves waiting |
| `RandomUnder.dfy` | uniform random numbers |

The stages of `AcmeManager.Manager` and of `StatusServer.Server` are methods of their own, each proved
equal to the function of the same name in `AcmeState` or `StatusServer`; only the entry points have a
row below, and what is promised about them is stated by the lemmas over all runs.  Those functions in
turn are tied to something simpler: `AcmePlan.FlagsDoWhatIsPlanned` shows that from outside the manager
with its flags cannot be told from one with a plan of ten kinds, and `StatusClients.EveryClientMoves`
what each event makes of each client.

Where the code and what is written about it differ, the model follows the code.  Where something one
would expect is false, an input shows it and a theorem says exactly when it holds:

- `Base64.StrictDecode`: the strict `b642bin` refuses every text that `bin2b64` wrote with line breaks,
  because a line break follows the last group; it accepts a text exactly if it has no line breaks.
- `Recode.StreamingIsBatchExactly`: libdstr/common.h forbids search strings that are substrings of
  others.  That suffices, but it is more than streaming needs: cuts change nothing if and only if no
  search string ends inside of another that can be found and would have been preferred.
- `EnvelopeRoundTrip.EncryptedForUs`: an empty plaintext can be encrypted but never decrypted; all
  others can, by the recipients.
- `EnvelopeRoundTrip.FinishesExactlyIfVerified`: the decrypter hands the tag it received to the library,
  which compares as many bytes as it is given; so a message is accepted if and only if its tag is a
  beginning, not empty, of the ciphertext's own, and a tag of 16 bytes only if it is that tag.
- `FprFiles.SaveThenLoad`: a set comes back from its file if and only if it lacks the empty string.
- `AcmeInvariants.RenewalAtTwoThirds`: a comment in the manager says that two thirds of a certificate's
  lifetime remain at its renewal; the code renews when two thirds are over.
- `AcmeInvariants.KeygensMayOverlap`: two key generations can be running at once;
  `AcmeInvariants.OverlapIsAnEarlyStart`: exactly in the runs in which an attempt is started while the
  generation of an earlier one is still running.
- `CertSwap.StaleOrderLosesThePair`: a start that finishes the renames leaves order.json behind, and an
  attempt that resumes it puts its new key beside the old key's certificate.
  `CertSwap.OldGenerationLosesThePair`: so does an old key generation that writes after the finalizing
  request.  `CertSwap.SkippingIsSafeUnlessBetweenRenames`: so does a start that finds no account
  between the two renames.  `CertSwap.CarefulIsExact`: these, and a finalizing request for a key that
  another generation has replaced, are all the ways, and each loses the pair exactly under the
  condition on the files that `CertSwap.CarefulOp` states.
- `CertSwap.ChainMayBeCut`: a start looks at the leaf only, so it can put a chain in place that is cut
  short; `CertSwap.ChainIsWholeUnlessCut` says in exactly which runs.
- `StatusServer.CommandsMayWait`: a command behind a "check" is not looked at until something else
  happens; `StatusCommands.RunStrands` says after exactly which runs one waits, and
  `StatusCommands.StrandedUntilThen` for how long.

## Model

| member | source | states |
|---|---|---|
| Base64.Bin2B64Quiet | libdstr/common.c:1107-1184 | Appends the text of exactly the bytes that may be encoded yet (whole lines, or everything when forced or without a width), reports how many those are, and fails exactly if the text does not fit the buffer |
| Base64.FullLines | libdstr/common.c:1122-1129 | What is held back for the next line leaves a whole number of lines, and of groups of three bytes |
| Base64.Bin2B64Stream | libdstr/common.c:1195-1206 | One streaming call appends that text and leaves in the input exactly the bytes behind it; a failure leaves the input as it was |
| Base64.TextSplit | libdstr/common.c:1130-1184 | The text of two byte strings is their texts one after another if the first ends a line |
| Base64.EncodeStreamIsBatch | libdstr/common.c:1195-1206 | For every cut of the bytes into pieces, forced only at the end, the stream writes the text of one call and leaves nothing |
| Base64.B642BinQuiet | libdstr/common.c:1208-1263 | Decodes, skipping foreign characters and stopping behind padding; consumed is the end of the last group; without it, anything behind that end is E_PARAM; E_FIXEDSIZE exactly if the bytes do not fit, and then the groups that do are there |
| Base64.B642Bin | libdstr/common.c:1265-1273 | Succeeds exactly if a group ends where the string does |
| Base64.B642BinStream | libdstr/common.c:1275-1285 | One streaming call appends the bytes of the complete groups and keeps what follows them; a failure leaves the input as it was and appends the groups that fit |
| Base64.DecodeStreamOfText | libdstr/common.c:1208-1285 | For every cut of a text into pieces, the stream gives its bytes back and keeps at most the last line break |
| Base64.Base64StreamRoundTrip | libdstr/common.c:1107-1285 | Any pieces of bytes through the encoder, then any other pieces of the text through the decoder, at any width of at least 4, give the bytes back |
| Base64.StrictDecode | libdstr/common.c:1265-1273 | The strict decoder sees the bytes of every text, and accepts a text exactly if it has no line breaks |
| Base64.TextWithoutBreaks | libdstr/common.c:1107-1184 | At width 0 the text is a single line, at most four characters for every three bytes begun |
| StandardText.TextIsStandard | libdstr/common.c:1122-1181 | The text of any bytes is that of section 4 of RFC 4648: the characters of the alphabet at the successive six-bit slices, padded to a multiple of four, with a line break after every chunk and at the end |
| StandardText.DigitIsStandard | libdstr/common.c:1154-1164 | The character of each value is the one at its place in the alphabet, for both codecs |
| StandardText.ValueIsPlace | libdstr/common.c:1226-1235 | A character has a value if and only if it is in the alphabet, and then its place there, for both codecs |
| StandardText.OthersPassedOver | libdstr/common.c:1222-1240 | The decoder does as if all characters that are neither in the alphabet nor padding were not there |
| StandardText.UrlTextIsStandard | libacme/b64url.c:44-82 | The text of libacme is that of section 5 of RFC 4648 without padding |
| Base64Writer.EncodeChar | libdstr/b64.c:15-45 | The switch over the position in a group writes the new characters and keeps the bits left over |
| Base64Writer.FeedOne | libdstr/b64.c:15-45 | One more byte extends what was written by those characters, and the kept position and bits are a function of all bytes so far |
| Base64Writer.FinishedIsBatch | libdstr/b64.c:47-72 | What was written plus the final characters is the batch encoder's text at width 0 |
| Base64Writer.Writer.Put | libdstr/b64.c:92-95 | Feeds one byte |
| Base64Writer.Writer.PutAll | libdstr/b64.c:74-90 | Feeds bytes, whatever calls came before |
| Base64Writer.Writer.Finish | libdstr/b64.c:47-113 | After any interleaving of calls the output has grown by exactly the batch text of all bytes fed |
| Base64Url.Bin2B64Url | libacme/b64url.c:44-82 | The loop over leftover bits computes the encoding |
| Base64Url.B64Url2Bin | libacme/b64url.c:121-167 | Accepts exactly the decodable texts and appends their bytes; length, alphabet and leftover bits are checked |
| Base64Url.DecodeEncode | libacme/b64url.c:44-167 | Decoding an encoding gives the bytes back |
| Base64Url.EncodeDecode | libacme/b64url.c:44-167 | Every accepted text is the encoding of its bytes |
| Base64Url.Bijection | libacme/b64url.c:44-167 | The accepted texts are exactly the encodings, and encoding is injective |
| Base64Url.BadCharacter | libacme/b64url.c:121-167 | A character outside the alphabet anywhere makes the text undecodable |
| Recode.DstrFind | libdstr/common.c:335-373 | Returns the leftmost match, of the lowest-numbered pattern among those that match there, and otherwise the length of the partial match to hold back |
| Recode.FindIsLeftmost | libdstr/common.c:335-373 | The match is at the first position where any pattern matches |
| Recode.LeftmostIsUnique | libdstr/common.c:335-373 | That description admits one answer only |
| Recode.DoRecode | libdstr/common.c:375-434 | Appends the recoded text, reports the stop string and how much was consumed, and fails exactly if the output does not fit |
| Recode.RecodesInTurn | libdstr/common.c:375-434 | Matches are replaced one after another, each the leftmost that is left; if the stop string is found, its replacement is the last thing written, and otherwise what has no match is passed through, all of it when forced |
| Recode.RecodeStreamCall | libdstr/common.c:436-450 | One streaming call takes off the input exactly what was consumed; a failure leaves the input as it was |
| Recode.ForcedConsumesAll | libdstr/common.c:375-434 | A forced call consumes everything, or ends right behind the stop string |
| Recode.NoMatchInPassed | libdstr/common.c:335-373 | No text that may follow can complete a match that starts before the part held back |
| Recode.MatchIsStable | libdstr/common.c:335-373 | If no search string ends inside of another that would have been preferred, the leftmost match stays the leftmost when the text grows |
| Recode.RecodeSplit | libdstr/common.c:375-450 | Under that condition an unforced call followed by a forced one on the rest is one forced call |
| Recode.RecodeStreamIsBatch | libdstr/common.c:436-465 | Under that condition, for every cut into pieces and every stop string, the stream's output, its stop and what it leaves are those of one batch call |
| Recode.StreamingIsBatchExactly | libdstr/common.c:436-465 | The condition is exact: it holds of the search strings if and only if for all replacements, texts and cuts the stream equals the batch call |
| Recode.CutChangesOutput | libdstr/common.c:335-450 | Wherever it fails, replacing that longer search string alone and cutting it there gives another output than the batch call |
| Recode.DocumentedConditionSuffices | libdstr/common.h:446-447 | It holds if no search string is a substring of another |
| Recode.SubstringsBreakStreaming | libdstr/common.h:446-447 | It fails of "ab" before "a", and holds of "ab" before "b", which the documentation forbids |
| FprFiles.RecodeEscapes | libcitm/fpr_watcher.c:92-123 | Recoding with the escape rules is escaping byte by byte |
| FprFiles.RecodeUnescapes | libcitm/fpr_watcher.c:125-180 | Recoding with the unescape rules undoes escaping, for all byte strings |
| FprFiles.SplitLineSoft | libdstr/common.c:755-855 | The soft split at the newline gives the first line and all the rest |
| FprFiles.SplitFirstLine | libdstr/common.c:755-855 | A line without a newline comes off whole |
| FprFiles.Bin2Hex | libdstr/common.c:1340-1364 | Appends two digits for each byte |
| FprFiles.Hex2Bin | libdstr/common.c:1366-1401 | The loop computes the reading and appends its bytes, or fails |
| FprFiles.HexAccepts | libdstr/common.c:1366-1401 | That fails exactly on a character that is neither a hexadecimal digit nor white space; white space is skipped, every two digits make a byte, and a last one without a partner is dropped |
| FprFiles.HexDigitsSpelled | libdstr/common.c:1340-1401 | Lower-case digits are written, both cases are read with their values, and nothing else is a digit |
| FprFiles.HexOfDigits | libdstr/common.c:1340-1364 | Each byte is written as its sixteens and its ones |
| FprFiles.HexRoundTrip | libdstr/common.c:1340-1401 | Reading the digits of a string gives it back |
| FprFiles.Save | libcitm/fpr_watcher.c:9-37 | The writing loops produce one encoded line for each element, in the order of the tree |
| FprFiles.Load | libcitm/fpr_watcher.c:39-90 | The reading loops collect the decoded non-empty lines; a line that cannot be read fails the load and empties the set |
| FprFiles.LineRoundTrip | libcitm/fpr_watcher.c:9-180 | A line holds no newline and reads back as its element, in both formats |
| FprFiles.SaveThenLoad | libcitm/fpr_watcher.c:9-180 | A set saved in any order is loaded back exactly, but for the empty string; it survives whole if and only if it lacks it |
| FprAlerts.EveryRunIsSafe | libcitm/fpr_watcher.c:185-262 | In every run with failed saves, failed injections and restarts: only alerts that a recorded sync made due are injected, none of them for a fingerprint remembered before, one that is due comes right before its fingerprint is remembered, and memory agrees with the files |
| FprAlerts.SyncedIfRecorded | libcitm/fpr_watcher.c:206-240 | After every run from an empty directory, a mailbox counts as synced, in memory and on disk, if and only if an operation recorded it successfully; and so do the keys |
| FprAlerts.NamelessIsForgotten | libcitm/fpr_watcher.c:125-180 | The mailbox without a name counts as synced exactly if it was recorded since the last restart |
| FprAlerts.RememberedAfterAlert | libcitm/keydir.c:206-238 | In every run from an empty directory, an operation remembers a fingerprint right after its alert if and only if an earlier operation recorded the keys, or its mailbox, successfully |
| FprAlerts.NewKeyObserved | libcitm/keydir.c:206-238 | After any run, a new key is alerted exactly if it was never remembered, a key sync was recorded and injecting works; and remembered exactly if it was not, no due alert failed and saving works |
| FprAlerts.RecipientObserved | libcitm/keydir.c:343-356 | So is a recipient, by the sync of the mailbox |
| FprAlerts.FreshIsSafe | libcitm/fpr_watcher.c:276-298 | A watcher on an empty directory is such a state |
| FprAlerts.AlertsAreNotDropped | libcitm/keydir.c:206-238 | A success injects exactly the alert that was due; a failure leaves the fingerprint unknown in memory and on disk |
| FprAlerts.DueLasts | libcitm/fpr_watcher.c:206-240 | A mailbox or key sync once recorded stays recorded through every run |
| FprAlerts.DueUntilRemembered | libcitm/fpr_watcher.c:185-204 | An alert that a sync made due stays due, through failures and restarts, until its fingerprint is remembered |
| FprAlerts.Keydir.AddFpr | libcitm/fpr_watcher.c:242-262 | Remembers a new fingerprint in memory and on disk together; a failed save undoes the insertion |
| FprAlerts.Keydir.AddKey | libcitm/keydir.c:206-238 | Alerts before remembering |
| FprAlerts.Keydir.DecryptRecips | libcitm/keydir.c:343-356 | The recipient loop alerts before remembering, and stops at the first failure |
| FprAlerts.Keydir.MailboxSynced | libcitm/fpr_watcher.c:219-240 | A mailbox is recorded in memory exactly if its file was saved |
| FprAlerts.Keydir.XkeysyncCompleted | libcitm/fpr_watcher.c:206-217 | The flag is set exactly if its file was touched |
| FprAlerts.Keydir.Init | libcitm/fpr_watcher.c:276-298 | A new process knows what the files hold |
| Decimal.ParseInteger | libdstr/cvt.c:60-116 | Accepts an optional sign and at least one digit whose value fits, and nothing else; the value and sign are those denoted |
| Decimal.DstrToU | libdstr/cvt.c:118-124 | Gives the value if it is a plain number that fits an unsigned int, and E_PARAM otherwise |
| Decimal.PrintedDenotes | libdstr/cvt.c:60-116 | A printed number denotes itself |
| Decimal.PrintedReadsBack | libdstr/cvt.c:60-124 | A printed unsigned int is read back |
| Decimal.DigitsSpelled | libdstr/cvt.c:60-116 | The ten digits and their values |
| Encrypter.Encrypter.Start | libcrypto/crypto.c:615-723 | Succeeds exactly for at most 128 recipients each of whose lines, with the terminator that printing appends, fits behind what the lines before it left staged; then everything put out so far is the header, in whole base64 lines, and what is staged is what they lack |
| Encrypter.Encrypter.PrintRecips | libcrypto/crypto.c:687-705 | The loop over the recipients stages their lines in order, flushing full ones, and stops exactly at the first that does not fit |
| Encrypter.ShortLinesFit | libdstr/common.c:882-892 | Lines of up to 976 bytes always fit |
| Encrypter.Encrypter.CipherWrites | libcrypto/crypto.c:742-751 | The cipher writes into the staging buffer without a check; its callers are proved to leave it room |
| Encrypter.Encrypter.Flush | libcrypto/crypto.c:754-755 | After a flush fewer than 48 bytes are staged |
| Encrypter.Encrypter.Update | libcrypto/crypto.c:725-764 | For input of any length the staging buffer never overflows and is flushed below one line, for every cipher that emits at most its input and a block less one byte |
| Encrypter.Encrypter.Finish | libcrypto/crypto.c:776-821 | Whatever the pieces of the plaintext were, all output since the start is the envelope of its ciphertext and tag |
| Encrypter.FlushLines | libcrypto/crypto.c:754-755 | A flush of full lines keeps text and staging buffer together equal to all bytes so far |
| Encrypter.FlushAll | libcrypto/crypto.c:792-793 | The last flush completes the text of all bytes |
| Encrypter.EncodeTag | libcrypto/crypto.c:805-808 | The tag becomes one line of base64, within a buffer of twice its size |
| EnvelopeFormat.PromisesAreConsistent | libcrypto/crypto.c:725-793 | The assumptions about the cipher can be met together |
| EnvelopeFormat.TextsSpelled | libcrypto/crypto.c:32-33 | The header, the footer and the tags of the metadata, letter by letter |
| MetadataParser.BlockReadsBack | libcrypto/crypto.c:961-1020 | A complete length-prefixed block of any bytes is read back, whatever follows |
| MetadataParser.BlockWaits | libcrypto/crypto.c:961-1020 | Every proper prefix of a block is waited for |
| MetadataParser.LineReadsBack | libcrypto/crypto.c:919-1078 | A complete line of metadata has its effect and is taken off the buffer, and nothing else is |
| MetadataParser.LineWaits | libcrypto/crypto.c:919-1078 | An incomplete line is left alone |
| MetadataParser.ParseMessageStart | libcrypto/crypto.c:1080-1107 | Three bytes are needed, so a bare "M:" starts nothing; otherwise the message starts exactly behind it, or fails for want of our key |
| MetadataParser.ParseInverts | libcrypto/crypto.c:906-1112 | However much of the metadata has arrived, the parser waits with a consistent rest, or has started with exactly the ciphertext behind it, or has found that our key is absent |
| Decrypter.Decrypter.ParseMetadata | libcrypto/crypto.c:906-1112 | The loop over the buffer computes that parse and its error |
| Decrypter.Decrypter.ReadLines | libcrypto/crypto.c:1138-1230 | The loop over the lines that are complete decodes, parses and decrypts them, and finds the tag; its state is described after failures too |
| Decrypter.Decrypter.Update | libcrypto/crypto.c:1114-1237 | One call takes the header and then lines off the input; what is not consumed stays; a failure takes nothing off, keeps what the decrypter learned up to there, and ends the message under way |
| Decrypter.Decrypter.Finish | libcrypto/crypto.c:1239-1280 | Succeeds only for a message that has started and a tag that the library takes, and appends the last plaintext |
| EnvelopeRoundTrip.SealedForIsSealed | libcrypto/crypto.c:1022-1026 | The key that is used was sealed for our fingerprint, and there is none exactly if we are no recipient |
| EnvelopeRoundTrip.WhatIsKnown | libcrypto/crypto.c:919-1078 | The parser learns the recipients in order, the IV, and our key exactly if we are among them |
| EnvelopeRoundTrip.LineDecoded | libcrypto/crypto.c:1185-1230 | A line moves its bytes from what is to come to what was decrypted |
| EnvelopeRoundTrip.LinesAdvance | libcrypto/crypto.c:1138-1230 | Reading any prefix of a message's lines advances through it and outputs the matching plaintext |
| EnvelopeRoundTrip.UpdateAdvances | libcrypto/crypto.c:1114-1237 | So does one call of decrypter_update, from the start or from anywhere between lines |
| EnvelopeRoundTrip.ReceiveAdvances | libcrypto/crypto.c:1114-1237 | However much of the text has arrived, and however it was cut into calls, the decrypter is under way in it or ends in E_NOT4ME, and has found the tag exactly if its line has arrived |
| EnvelopeRoundTrip.ReceivedAsSent | libcrypto/crypto.c:615-1280 | For every cut and every tag: a message for us yields its plaintext, its tag and its recipients in order, and ends in success if the tag verifies and in E_SSL if not; one for others ends in E_NOT4ME; an empty one never starts |
| EnvelopeRoundTrip.FinishesExactlyIfVerified | libcrypto/crypto.c:1114-1280 | For every part of a message with any tag, in any pieces: finishing succeeds if and only if the message is for us and not empty, the line of the tag has arrived, and the tag verifies the ciphertext |
| EnvelopeRoundTrip.FullTagDecides | libcrypto/crypto.c:1252-1267 | A tag of 16 bytes leads to success if it is the ciphertext's own, and to E_SSL otherwise |
| EnvelopeRoundTrip.NothingUnverifiedSucceeds | libcrypto/crypto.c:1114-1280 | For any text at all in any pieces: success means that a tag was received that verifies exactly the bytes put into the cipher, under a key unsealed for us, and that what came out is what the cipher makes of them |
| EnvelopeRoundTrip.EncryptedForUs | libcrypto/crypto.c:615-1280 | Decryption succeeds if and only if the plaintext is not empty and we are a recipient, and then gives it back |
| EnvelopeAccepts.AcceptedIsAnEnvelope | libcrypto/crypto.c:906-1280 | Any text that is accepted is an envelope: the header, base64 lines that hold well-formed metadata with the version first, "M:" and a ciphertext, and the line of a tag that verifies it |
| EnvelopeAccepts.LineIsSpelled | libcrypto/crypto.c:919-1078 | What a turn of the parser takes off its buffer is a well-formed line of metadata, and has its effect |
| EnvelopeAccepts.WrongHeaderIsRefused | libcrypto/crypto.c:1120-1137 | A text in any pieces that does not start with the header ends in E_PARAM and puts nothing out |
| EnvelopeAccepts.FailureIsFinal | libcrypto/crypto.c:1231-1247 | After a failed call nothing is taken off the input and nothing can be finished |
| EnvelopeAccepts.CallGetsOn | libcrypto/crypto.c:1138-1230 | A call takes a part of its text whenever a line is complete, or fails; once the tag is there, it takes everything |
| EnvelopeAccepts.LongTagIsRefused | libcrypto/crypto.c:1172-1190 | The line of a tag of more than 16 bytes ends in E_PARAM |
| EnvelopeAccepts.BlockWaitsExactly | libcrypto/crypto.c:961-1020 | A block whose length is there is waited for exactly while some of its bytes are missing |
| EnvelopeAccepts.LengthWaitsExactly | libcrypto/crypto.c:961-1020 | A length is waited for up to five characters, and refused then |
| EnvelopeAccepts.VersionWaitsExactly | libcrypto/crypto.c:936-960 | A version is waited for up to four characters |
| EnvelopeAccepts.StartFailsExactly | libcrypto/crypto.c:1022-1107 | A message does not start exactly if we are no recipient, there is no IV, or our key cannot be opened, each with its own error |
| HashMap.MaskIsRemainder | libdstr/hashmap.c:156 | With a power of two of buckets, hash & mask is the remainder |
| HashMap.UpperBitIsUpper | libdstr/hashmap.c:99-109 | hash & upper_bit tests the bit that doubling adds |
| HashMap.BucketAfterDoubling | libdstr/hashmap.c:93-100 | Doubling moves an element by the old number of buckets if that bit is set, and not otherwise |
| HashMap.Map.constructor | libdstr/hashmap.c:42-63 | 32 empty buckets and an empty map |
| HashMap.Map.FindIn | libdstr/hashmap.c:205-222 | The walk along one chain finds the element with the key, and what points to it, or that the map lacks the key |
| HashMap.Map.Get | libdstr/hashmap.c:205-222 | The element that the plain map has under the key, or null |
| HashMap.Map.Set | libdstr/hashmap.c:150-180 | The plain map is updated at the key; the replaced element is returned and unlinked; a duplicate is refused when uniqueness was asked for; num_elems counts the map; and if num_elems was below num_buckets it still is, whenever reallocation succeeds |
| HashMap.Map.Append | libdstr/hashmap.c:173-176 | A new key gets its element at the end of its chain |
| HashMap.Map.Replace | libdstr/hashmap.c:160-171 | A key that is there gets the new element in the place of the old one |
| HashMap.Map.CheckRehash | libdstr/hashmap.c:70-121 | Doubles exactly if the load is full and memory is there, and keeps every element in the bucket of its hash |
| HashMap.SplitChain | libdstr/hashmap.c:102-117 | One chain is split in place into those with and those without the new bit, losing none |
| HashMap.SplitBucket | libdstr/hashmap.c:101-120 | Splitting one bucket leaves the chains of all others alone |
| HashMap.Map.Del | libdstr/hashmap.c:232-255 | The key leaves the plain map, and its element is returned and unlinked |
| HashMap.Map.Unlink | libdstr/hashmap.c:241-252 | Exactly one element leaves its chain |
| HashMap.Remove | libdstr/hashmap.c:265-285 | From the element alone, finds its map and takes it out; does nothing to an element in no map; never misses it |
| HashMap.SentinelAfter | libdstr/hashmap.c:269-271 | The links from any element lead to the sentinel of its map |
| HashMapTraversal.NextNonemptyBucket | libdstr/hashmap.c:287-296 | The first bucket from there on that holds anything, if one does |
| HashMapTraversal.Traversal.Next | libdstr/hashmap.c:303-321 | Returns the elements that lie ahead one by one, and null exactly when none is left |
| HashMapTraversal.Traversal.RemoveCurrent | libdstr/hashmap.h:59-60 | Removing the element just returned leaves what lies ahead unchanged |
| HashMapTraversal.WalkMeetsEachOnce | libdstr/hashmap.c:298-321 | What lies ahead of a new walk is every element, each once |
| HashMapTraversal.VisitAll | libdstr/hashmap.c:298-321 | A caller that removes any of the elements as they come still meets each exactly once, and removes those and no others |
| HashMapTraversal.PopNext | libdstr/hashmap.c:328-340 | Takes one element out of the map, and returns null exactly if it is empty |
| HashMapTraversal.PopAll | libdstr/hashmap.c:323-340 | Popping to the end returns each element exactly once and leaves the map empty |
| AcmeInvariants.OneRequestAtATime | libcitm/acme_manager.c:674-1099 | In every run at most one request is outstanding across both clients, and none is ever started while another is |
| AcmeInvariants.CleanedUpIsClean | libcitm/acme_manager.c:789-800 | While unprepare_done is set, no set-challenge was started since the last delete-challenge that succeeded |
| AcmeInvariants.NothingStartsDuringDelete | libcitm/acme_manager.c:1007-1012 | No step starts anything, in particular a set-challenge, while a delete-challenge is outstanding |
| AcmeInvariants.NeverStuck | libcitm/acme_manager.c:934-1099 | After every am_advance_state without an error, what the manager waits for is what will wake it: the configuration its timer, a backoff its timer at its end, a cleanup its timer or its answer, an attempt its answer or its own key generation, a served certificate the timer of its expiry or renewal |
| AcmeInvariants.ServedCertIsCurrent | libcitm/acme_manager.c:978-996 | After every am_advance_state without an error, a certificate that is served has not expired |
| AcmeInvariants.RequestsComeInOrder | libcitm/acme_manager.c:674-833 | Each outstanding request comes after what it needs: no new order before the old one was looked at, no finalize without a key, no cleanup during an attempt |
| AcmeInvariants.KeygensAfterAdvance | libcitm/acme_manager.c:686-690 | In every reachable state, a call starts one key generation if it gets to an attempt that has not been started, and none otherwise; so two run after it exactly if two did before, or one did and the guard says so |
| AcmeInvariants.OverlapIsAnEarlyStart | libcitm/acme_manager.c:686-690 | Key generations never overlap in a run if and only if no call of it starts an attempt while one is running |
| AcmeInvariants.KeygensMayOverlap | libcitm/acme_manager.c:846-851 | There is a run in which they do, because a failed attempt forgets its own |
| AcmeInvariants.RunKeepsInv | libcitm/acme_manager.c:379-1143 | The invariant behind these holds in every run: the flags of every stage tell exactly which request is outstanding |
| AcmeInvariants.StepKeepsInv | libcitm/acme_manager.c:379-1143 | Every event keeps it |
| AcmeInvariants.AdvanceNewCertTries | libcitm/acme_manager.c:674-853 | An attempt waits only for an answer or a key, and one that ends leaves nothing outstanding |
| AcmeInvariants.AdvanceGoodAdvances | libcitm/acme_manager.c:934-1099 | A call without an error ends in a state that something will wake up |
| AcmeInvariants.AnswerKeepsInv | libcitm/acme_manager.c:379-628 | The callback of the outstanding request, with any outcome, keeps the invariant |
| AcmeInvariants.InitIsSound | libcitm/acme_manager.c:1145-1276 | Every state that acme_manager_init leaves is sound |
| AcmeInvariants.BackoffPositive | libcitm/acme_manager.c:349-360 | Every retry waits: at least 15 seconds for a certificate, 1 for an account |
| AcmeInvariants.RenewalIsEarlier | libcitm/acme_manager.c:336-341 | Renewal is due before expiry |
| AcmeInvariants.RenewalAtTwoThirds | libcitm/acme_manager.c:336-341 | Renewal is due when two thirds of the lifetime are over, to the second |
| AcmeInvariants.BackoffGrows | libcitm/acme_manager.c:349-360 | The delays grow with the failures in a row, from 15 seconds to half an hour, and from 1 second to one minute |
| AcmePlan.FlagsDoWhatIsPlanned | libcitm/acme_manager.c:372-1281 | In every run the manager with its flags allows the same events as the simple one, and leaves the same requests, key generations, timers, certificate and cleanup, and fails in the same runs |
| AcmePlan.StepIsSame | libcitm/acme_manager.c:379-1143 | Every event does to the flags what it does to the plan |
| AcmePlan.AttemptIsSame | libcitm/acme_manager.c:674-853 | One call of advance_new_cert, wherever the attempt stands, does what the plan says |
| AcmeProtocol.ProtocolIsKept | libcitm/acme_manager.c:674-1099 | In every run each key generation and each request is one that the calls and answers before it allow, by a table of what may follow what |
| AcmeProtocol.OrderIsPickedUp | libcitm/acme_manager.c:692-745 | In every run the first thing asked for after the order on file was looked at is what its status calls for: get_authz, finalize, its two other forms, or a new order; and an order past its challenge is followed by no new order, authorization or challenge until another attempt starts |
| AcmeProtocol.ChallengeIsPickedUp | libcitm/acme_manager.c:756-787 | So it goes by the status of the challenge: set it, wait for it, skip it, or start another attempt |
| AcmeManager.Manager.constructor | libcitm/acme_manager.c:1145-1276 | Starts in the state that what is on disk calls for |
| AcmeManager.Manager.Advance | libcitm/acme_manager.c:674-1143 | One whole step of the manager in place, stage by stage, is the step that the invariants are about; after an error it closes and frees |
| AcmeManager.Manager.Receive | libcitm/acme_manager.c:379-628 | Every callback, with every outcome |
| AcmeManager.Manager.KeyReady | libcitm/acme_manager.c:452-463 | A key generation ends; its failure is fatal |
| AcmeManager.Manager.CheckNow | libcitm/acme_manager.c:372-377 | Ends the wait for a configuration |
| AcmeManager.Manager.Close | libcitm/acme_manager.c:1278-1281 | Marks the manager as closing |
| CertSwap.Directory.RenameNewKeyAndCert | libcitm/acme_manager.c:634-672 | Does the renames that are called for, in order, and with any number of them failing stops in exactly that prefix |
| CertSwap.SwapIsCrashSafe | libcitm/acme_manager.c:835-841 | Over any crashes and restarts, in every run whose operations are careful, key.pem and cert.pem match whenever the process is between attempts, and an uninterrupted start always makes them match |
| CertSwap.CarefulIsExact | libcitm/acme_manager.c:634-845 | An operation is careful, which the files before it decide, if and only if every careful run after it keeps the pair matched between attempts |
| CertSwap.RunKeepsInv | libcitm/acme_manager.c:634-672 | In every careful run a certificate that waits for its swap has its key waiting with it or already in place |
| CertSwap.ResumingIsSafeIfItsKeyWaits | libcitm/acme_manager.c:692-745 | Resuming the order on file keeps later careful runs safe if and only if the key it was finalized with is the one in keynew.pem |
| CertSwap.StaleOrderLosesThePair | libcitm/acme_manager.c:1200-1208 | From every directory, a careful run comes to an attempt that may resume an order whose certificate is already in place; resuming it can end in a mismatched pair |
| CertSwap.OnlyACrashLeavesAStaleOrder | libcitm/acme_manager.c:842-844 | In a careful run without a crash, an order is removed with its attempt, and never found on file with its certificate in place |
| CertSwap.OldGenerationLosesThePair | libcitm/acme_manager.c:63-92 | With no key waiting, a careful run comes to a moment at which the older of two key generations may write; if it does, the pair can end mismatched |
| CertSwap.SkippingIsSafeUnlessBetweenRenames | libcitm/acme_manager.c:1190-1196 | A start that finds no account keeps every later careful run safe if and only if it does not come between the two renames |
| CertSwap.RecoveryMayBeInterrupted | libcitm/acme_manager.c:1207-1208 | No rename, crash, start or step of an attempt before certnew.pem is opened changes what recovery leads to |
| CertSwap.LeafCommits | libcitm/acme_manager.c:835-841 | Both old or both new: the pair that recovery leads to becomes the new one at one operation only, the one that completes the leaf; opening certnew.pem leads back to the pair in place |
| CertSwap.ChainIsWholeUnlessCut | libcitm/acme_manager.c:634-672 | In every run the chain in place is cut if and only if it was put there by a start after the process died between the leaf and the rest of a certnew.pem not opened since |
| CertSwap.ChainMayBeCut | libcitm/acme_manager.c:647-659 | From every directory, some careful run leads to a matching pair whose chain is cut short |
| StatusServer.EveryRunIsSafe | libcitm/status_server.c:142-161 | In every run: one write at a time, each client in one list, every idle client last sent the status published last, and while a client waits a write or an advance is due |
| StatusServer.DoneMeansNothingLeft | libcitm/status_server.c:401-432 | When the server reports that it is done, no client and no write is left |
| StatusServer.RoundMakesProgress | libcitm/status_server.c:328-362 | An advance and the end of its write, successful or not, leave fewer clients waiting |
| StatusServer.EverybodyIsTold | libcitm/status_server.c:328-362 | Wherever a run leaves clients waiting and no write under way, as many rounds later every open client was last sent the status published last |
| StatusServer.GoesByThePublished | libcitm/status_server.c:583-602 | A server without an error goes by the argument of the last update, or of its start |
| StatusClients.EveryClientMoves | libcitm/status_server.c:33-602 | In every reachable state, each event puts each client where its turn, and what happened to it, say, and nobody else |
| StatusClients.EndsExactly | libcitm/status_server.c:328-432 | The server fails exactly if it is closed or a write cannot be started, and reports that it is done exactly once the listener is closed and nobody is left |
| StatusClients.NeverHangs | libcitm/status_server.c:401-432 | In every run, until a failed server is done, an advance is due or the listener or a client is being closed |
| StatusServer.CommandsMayWait | libcitm/status_server.c:364-391 | There is a run after which a command waits though nothing is under way or scheduled |
| StatusCommands.AdvanceStrands | libcitm/status_server.c:278-397 | In every reachable state, an advance leaves a command waiting so if and only if it takes a "check" and another complete command is queued |
| StatusCommands.StepStrands | libcitm/status_server.c:278-397 | No other event does, but for the failure of another client once that is so |
| StatusCommands.RunStrands | libcitm/status_server.c:278-397 | A run leaves a command waiting if and only if the last thing that happened in it, but for such failures, was an advance of that kind |
| StatusCommands.RoundTakesOneCommand | libcitm/status_server.c:364-391 | With no client waiting for a write, an advance and the end of its write take exactly one command |
| StatusCommands.CommandsTakeOneRoundEach | libcitm/status_server.c:364-391 | After n of them, n commands fewer are queued, down to none |
| StatusCommands.StrandedUntilThen | libcitm/status_server.c:364-391 | After every run that leaves commands waiting, exactly as many further advances as there are commands have all of them looked at |
| StatusCommands.StepKeepsQueues | libcitm/status_server.c:112-391 | Every event keeps this: exactly the open clients with a complete command are queued, each once |
| StatusServer.StepKeepsInv | libcitm/status_server.c:33-602 | Every event keeps the invariant |
| StatusServer.Server.AdvanceState | libcitm/status_server.c:328-397 | In place, serves new clients, then stale, then bad ones, then the first complete command, one write at a time |
| StatusServer.Server.WriteEnds | libcitm/status_server.c:142-168 | The end of a write closes a client that failed or was to be closed, and wakes the server |
| StatusServer.Server.UpdateStatus | libcitm/status_server.c:583-602 | Stores the new status, and all idle clients become stale |
| StatusServer.Server.Stop | libcitm/status_server.c:401-432 | Closes the listener, then every client, then reports |
| RandomUnder.EveryValueIsAsLikely | libcrypto/crypto.c:1338-1406 | Every value below end comes from exactly MAX / end raw words |
| RandomUnder.AtLeastHalfAreAccepted | libcrypto/crypto.c:1338-1406 | At least half of all raw words are accepted |
| RandomUnder.NoTryFavoursAValue | libcrypto/crypto.c:1338-1406 | After any rejected words, the next word leads to each value in equally many ways |
| RandomUnder.FirstTryDecides | libcrypto/crypto.c:1338-1406 | The first try that is not rejected decides: its word, divided down, is below end and is the value, or random_bytes failed and so does the call; it gives up exactly if all tries were rejected |
| RandomUnder.RandomUnder | libcrypto/crypto.c:1338-1406 | The loop returns the first accepted word divided down, below end; or the failure of random_bytes; or an error after 100000 tries |

## Left out

- Base64.Bin2B64Quiet: widths 1 to 3 are excluded, because the code divides by zero there; at width 0 nothing is ever held back, so the streaming theorems are for widths of at least 4.
- HashMap.Map.Set: elements are the intrusive nodes themselves, keys are values, and the two hash functions are one uninterpreted function.
- CertSwap.OldGenerationLosesThePair: that a key generation writes its key and reads it back is one operation, so two that write at the same moment are not interleaved; an order.json that was being written counts as absent, because it does not load.
- Lengths are unbounded integers: a fingerprint or sealed key of 2^32 - 1 bytes, whose length wraps where one is added to it, is not modelled.
- Memory that cannot be allocated, except for the hash map's reallocation; the number of buckets is unbounded.
- OpenSSL: a cipher is any set of functions that keep the promises in `EnvelopeFormat`, and compares a tag as far as it is given, as its manual allows tags of 1 to 16 bytes; keys, sealing and key generation are opaque, and failures of the library are not modelled.
- Bases 8 and 16 and the other widths of libdstr/cvt.c, and the variants of the encoders that print or append to fixed buffers and streams.
- The files of the watcher are changed by replacing them; a crash inside of a call is an operation that fails followed by a restart.
- The clock is read once in each call of am_advance_state, and statuses that are only displayed are not modelled.
- X.509 parsing, JSON, HTTP, TLS, libuv and sockets: their outcomes are inputs of the events.
- Partial lines in a status client's read buffer, and write errors that Windows reports early.
- libcitm/citm.c, libcitm/sc.c and the IMAP client and server.
