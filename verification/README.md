# A verified model of Mozc's base algorithms and IPC client

Mozc is a Japanese input method. This project models five parts of it in Dafny and proves what they are for:
the number printer and parser of `NumberUtil`, AES-256/CBC with its padding and SHA-1, the session state machine of
the IPC `Client`, the text routines of `Util` (UTF-8, graphemes, CSV, the JIS X 0208 bitmap), and the buffered
generator of C arrays. `dafny verify dfyconfig.toml` checks everything.

| files | part |
|---|---|
| `NumberParser`, `NumberGrammar`, `NumberReading`, `NumberRoundTrip` | the token reducer, what it accepts, what it reads, what it does with printed tokens |
| `NumberPrinter`, `NumberText`, `NumberTextRoundTrip`, `NumberCandidates` | printing, normalising text, and one after the other |
| `NumberListing`, `NumberDigits`, `NumberBytes` | the list of candidates, zero and texts of digits, UTF-8 bytes |
| `AesTables`, `AesSBox`, `AesField`, `AesBlock`, `AesCipher` | the cipher of FIPS 197 as functions on blocks, and its inversion |
| `Aes256`, `AesKeySchedule`, `AesCbc`, `Encryptor` | the program's in-place methods, proved against those functions |
| `Sha1Padding`, `Sha1`, `Sha1Example` | the padded blocks and the digest of FIPS 180-4, and its published example |
| `ClientWorld`, `ClientSession`, `ClientRuns`, `ClientReplay`, `ClientForgets` | the environment, the client, whole runs, crash and replay, and their limits |
| `Utf8`, `Utf8Text`, `Csv`, `Graphemes`, `JisX0208` | text routines |
| `CodeGen` | the buffered generator |
| `Wrappers` | shared definitions |

Code that changes arrays, fields or cursors step by step is a method with loops or a class; each method's `ensures` ties it
to a specification function, and the lemmas say what that function means. The C++ type `char` is unsigned. `size_t` and
`uint64_t` have 64 bits where their width matters; array lengths elsewhere are unbounded.

In the client, everything outside is the `World`: each IPC exchange, launcher call and ping gets an arbitrary outcome and is
appended to a ghost log. The theorems therefore hold for every environment, and statements such as "at most five starts" or
"a reply to this very input" are about that log. The server of the replay theorem is any deterministic step function; that
the replies in the log come from it is a predicate on the log (`ClientReplay.Honest`), and so is where faults happened.

## What turned out differently from what one might expect

- After a thousands or hundreds place, a run of digits that is too large is dropped and the number is accepted all the same:
  `千9999` is read as 1000. `NumberReading.NormalizeReads` gives the exact condition, `Misplaced`: an accepted value is
  what a one-pass reading of the tokens gives if and only if no such run stands in them. `NormalizeExactly` says for
  all token sequences which are accepted, and that the value is the reading of the tokens in front of the dropped run.
- The kanji-number table has no entry for 阡 and 萬, which the formal style prints, so a formal text with a thousands digit or
  a 萬 group is never parsed. `NumberCandidates.OldKanjiRoundTrip` has the exact condition; `OldKanjiMeaning` shows
  that with those two entries it would be "no 1 in a tens or hundreds place".
- A comma at the end of a CSV line adds an empty field if and only if the field in front of it is not quoted; equivalently,
  an empty unquoted last field is lost exactly behind a quoted field or alone (`Csv.SplitLine`, `Csv.TrailingComma`).
- `CodepointToUtf8` writes nothing for 0, and for 0x4000000..0x7FFFFFF and above 0x7FFFFFFF it writes something that its
  own decoder does not read back.
- A string of 2^61 bytes or more has no standard SHA-1 padding; from 2^64-72 bytes on the block count wraps, and none or
  one of its blocks is hashed (`Sha1Padding.Messages`).
- Without an IPC factory, `EnsureCallCommand` of a session that is OK reports success although nothing was sent.
- A call that starts in a session that is not OK gets a new session, but the journal is not replayed. If a crash is
  first noticed by another operation than a key or command call, the composition is lost
  (`ClientForgets.CompositionLost`); a full journal is dropped instead of being replayed. `ClientForgets.FreshExactly` and
  `RecoveredExactly` say that a successful call is in step for every lawful server exactly with an empty journal in the
  first case, and exactly with a journal that is not full in the second.
- SERVER_FATAL is left by `CheckVersionOrRestartServer` only when the protocol version last seen is below the client's.
- `xsputn` of more bytes than fit reaches the sink even when no definition is open.

## Model

| member | source | states |
|---|---|---|
| NumberParser.AddAndCheckOverflow | src/base/number_util.cc:536-546 | succeeds exactly when the unbounded sum fits 64 bits; the output is the sum modulo 2^64 either way |
| NumberParser.MultiplyAndCheckOverflow | src/base/number_util.cc:548-556 | succeeds exactly when the unbounded product fits 64 bits, also for a zero factor |
| NumberParser.ReduceLeadingNumbersAsBase10System | src/base/number_util.cc:621-636 | consumes the maximal run of digits and yields its base-10 value, and fails exactly when that value exceeds 2^64-1 |
| NumberParser.InterpretNumbersAsBase10System | src/base/number_util.cc:642-649 | succeeds exactly when all tokens are digits and their value fits 64 bits |
| NumberParser.ReduceDigitsHelper | src/base/number_util.cc:681-732 | takes, declines or abandons one place as the reducer on the remaining tokens does, cursor included, and the number taken is below ten times the base |
| NumberParser.ReduceOnesDigit | src/base/number_util.cc:653-661 | takes a leading digit and nothing else |
| NumberParser.ReduceNumberLessThan10000 | src/base/number_util.cc:757-784 | combines the four places in order; no sum overflows, and acceptance needs a taken place and a boundary behind it |
| NumberParser.InterpretNumbersInJapaneseWay | src/base/number_util.cc:790-815 | agrees with the recursive interpretation of the token sequence; every turn of the loop consumes a token |
| NumberParser.NormalizeNumbersHelper | src/base/number_util.cc:819-831 | chooses base 10 or ranks by the largest token; the empty sequence fails |
| NumberGrammar.CoefficientIsSection | src/base/number_util.cc:681-784 | trying the four places one after the other accepts exactly the sections of a grammar of strictly decreasing units, with the same value and the same rest |
| NumberGrammar.SectionBelow | src/base/number_util.cc:751-784 | a section stays below its limit, so a coefficient is below 10000 and no addition in it overflows |
| NumberReading.CoefficientBelow10000 | src/base/number_util.cc:757-784 | every accepted coefficient is below 10000 |
| NumberReading.InterpretReads | src/base/number_util.cc:790-815 | an accepted value never exceeds a left-to-right one-pass reading of the tokens, and equals it exactly when no crowded run follows a taken thousands or hundreds place |
| NumberReading.InterpretSums | src/base/number_util.cc:790-815 | exactly the well-formed sequences whose value fits 64 bits are accepted, and the value is the unbounded sum of the terms of this input: its sections, each an accepted coefficient below 10000 that is worth what it reads as, times its own rank tokens, strictly decreasing |
| NumberReading.RanksDecrease | src/base/number_util.cc:802-811 | the rank tokens of an accepted input strictly decrease: all of them, or those in front of a run that is dropped |
| NumberReading.BasesAreRanks | src/base/number_util.cc:790-815 | the bases of the terms are the rank tokens in order, and a last 1 exactly if tokens follow the last rank |
| NumberReading.ReadingSums | src/base/number_util.cc:786-790 | any token sequence reads as the sum of its terms |
| NumberReading.InterpretKeeps | src/base/number_util.cc:790-815 | an accepted value is the one-pass reading of the tokens in front of the dropped run, and acceptance is well-formedness and range |
| NumberReading.KeptAll | src/base/number_util.cc:704-711 | nothing is dropped if and only if no crowded run follows a unit 100 or 1000 |
| NumberReading.KeptReads | src/base/number_util.cc:704-711 | dropping tokens always lowers the number |
| NumberReading.NormalizeExactly | src/base/number_util.cc:819-831 | which token sequences are numbers, and which number each of them is, for every sequence |
| NumberReading.NormalizeReads | src/base/number_util.cc:819-831 | the same equivalence for whole token sequences, base-10 ones included |
| NumberReading.DroppedDigits | src/base/number_util.cc:704-711 | 1000 followed by any run too large for the hundreds is read as exactly 1000, less than its reading |
| NumberReading.DroppedDigitsExample | src/base/number_util.cc:704-711 | 9999 is such a run |
| NumberRoundTrip.KanjiGroupParses | src/base/number_util.cc:681-784 | a readable kanji group of four digits is parsed back to its value, and parsing stops right behind it |
| NumberRoundTrip.UnreadableGroupRefused | src/base/number_util.cc:713-717 | a formal group with digit 1 in tens or hundreds is refused |
| NumberRoundTrip.ArabicGroupParses | src/base/number_util.cc:704-711 | a group written in Arabic digits without leading zeros is parsed back to its value |
| NumberRoundTrip.NumberParses | src/base/number_util.cc:790-815 | a printed number of readable groups is interpreted as its value if it fits 64 bits, and refused otherwise |
| NumberRoundTrip.NumberRefused | src/base/number_util.cc:790-815 | one unreadable group anywhere makes the whole number refused |
| NumberRoundTrip.PrintedNumberNormalizes | src/base/number_util.cc:819-831 | both directions together, for every nonzero number of at most five groups |
| NumberPrinter.RenderSegment | src/base/number_util.cc:270-293 | one group: no leading zeros in the Arabic styles, silent zeros and silent 1 in front of ranks in kanji, every 1 spelled out in the formal style |
| NumberPrinter.RenderNumber | src/base/number_util.cc:266-297 | the groups from the most significant on, with a rank behind each group that prints something |
| NumberPrinter.ArabicToKanji | src/base/number_util.cc:200-322 | succeeds exactly on strings of the digits 0 to 9 that are all zeros or at most 20 long, appends the candidates, and leaves the output alone on failure |
| NumberText.Tokenize | src/base/number_util.cc:846-868 | the tokens of the longest prefix of number characters, and the kanji form of that prefix |
| NumberText.FormatNumbers | src/base/number_util.cc:881-907 | the number of the tokens behind the zeros that are kept, or failure |
| NumberText.NormalizeNumbers | src/base/number_util.cc:834-920 | succeeds exactly when every character is a number character and the tokens normalise; the output is the shortest decimal form, with the leading zeros kept when asked for |
| NumberTextRoundTrip.RanksMeaning | src/base/number_util.cc:266-297 | the characters printed for a number stand for exactly the tokens of its groups |
| NumberTextRoundTrip.RanksKnown | src/data/preedit/kanjinumber-arabicnumber.tsv:1-44 | all printed characters are in the table, except exactly for formal texts with 阡 or 萬 |
| NumberTextRoundTrip.GroupedValue | src/base/number_util.cc:228-242 | padding and grouping keep the value of the digits |
| NumberTextRoundTrip.DecimalForm | src/base/number_util.cc:906-908 | the decimal form of a digit string's value is the string without its leading zeros |
| NumberCandidates.KanjiRoundTrip | src/base/number_util.cc:200-322 | for every nonzero string of at most 20 digits, the kanji and both Arabic-and-kanji texts normalise to its decimal form up to 2^64-1 and are refused above |
| NumberCandidates.OldKanjiRoundTrip | src/base/number_util.cc:286-301 | the formal text normalises to it if and only if no tens or hundreds digit is 1, neither 阡 nor 萬 is printed, and the value fits 64 bits |
| NumberCandidates.OldKanjiMeaning | src/base/number_util.cc:713-717 | with values given to 阡 and 萬, the condition is only the 1 in tens or hundreds and the 64-bit range |
| NumberCandidates.FormalTenRefused | src/base/number_util.cc:713-717 | the formal text of 10 is an input at which the round trip fails |
| NumberCandidates.TwentyVariantAgrees | src/base/number_util.cc:304-309 | replacing 弐拾 by 廿 everywhere never changes what the text normalises to |
| NumberCandidates.CandidatesNeverMisread | src/base/number_util.cc:200-322 | every candidate, extras included, normalises to the digits it was made from or is refused |
| NumberCandidates.PrintAndNormalize | src/base/number_util.cc:914-921 | the two programs one after the other: the candidates are those of the input in order, each result is what its text normalises to, and none is misread |
| NumberListing.CandidatesListed | src/base/number_util.cc:184-319 | every number has one candidate in kanji and a formal one, one in each plain style exactly beyond four digits, the variant with 廿 exactly if a group has a 2 in its tens, and 拾 and 阡 exactly for 10 and 1000 in at most four digits, in this order and with these descriptions |
| NumberListing.PrintAll | src/base/number_util.cc:200-322 | the program appends exactly these candidates |
| NumberListing.TwentyFound | src/base/number_util.cc:304-309 | 弐拾 occurs in the formal text exactly if some group of four digits has a 2 in its tens |
| NumberDigits.PrintZero | src/base/number_util.cc:210-220 | zero prints 零 alone, which normalises to a single 0 |
| NumberDigits.ZeroIsZero | src/data/preedit/kanjinumber-arabicnumber.tsv:1-21 | 零 and 0 may stand for each other anywhere in a text |
| NumberDigits.DigitsAreKept | src/base/number_util.cc:891-907 | a text of digits is kept as it is, leading zeros and all, or loses exactly them when they are trimmed; beyond 2^64-1 it is refused |
| NumberDigits.KanjiOutput | src/base/number_util.cc:860-866 | the kanji output has no Arabic digit left and is a number text of the same number, except that it is refused exactly when the input had an Arabic zero, which it writes as 〇 |
| NumberDigits.ThirtyIsRefused | src/data/preedit/kanjinumber-arabicnumber.tsv:43-44 | 卅 and 卌 are number characters worth 30 and 40, and no numbers |
| NumberDigits.DigitGlyphs | src/base/number_util.cc:61-69 | the code points a style prints for a digit |
| NumberDigits.RankGlyphs | src/base/number_util.cc:71-76 | and for a rank |
| NumberBytes.TokenizeUtf8 | src/base/number_util.cc:849-868 | on bytes, the tokens of a valid string of number characters; malformed UTF-8 stops the loop |
| NumberBytes.CharOfMeans | src/base/number_util.cc:851-858 | a code point counts as a number character only if it is that character's own |
| NumberBytes.NormalizeNumbersUtf8 | src/base/number_util.cc:834-908 | bytes normalise as the characters they decode to, and malformed bytes never |
| NumberBytes.SpelledForm | src/base/number_util.cc:849-868 | encoding a text of number characters does not change what it normalises to |
| NumberBytes.BytesRoundTrip | src/base/number_util.cc:200-322 | the round trip of printing and normalising, on the bytes that are passed |
| AesTables.SBoxInverse | src/base/unverified_aes256.cc:43-89 | the inverse table undoes the table for every byte |
| AesTables.InvSBoxInverse | src/base/unverified_aes256.cc:43-89 | and the other way round |
| AesSBox.SBoxIsStandard | src/base/unverified_aes256.cc:43-65 | every entry is the affine image of a multiplicative inverse of its index in GF(2^8), section 5.1.1 of FIPS 197 |
| AesXor.XTimeLinear | src/base/unverified_aes256.cc:100-103 | multiplication by x is linear over exclusive or |
| AesBlock.SubBytesInverse | src/base/unverified_aes256.cc:211-221 | the byte substitutions undo each other on every block |
| AesBlock.ShiftRowsInverse | src/base/unverified_aes256.cc:235-291 | the row shifts undo each other |
| AesBlock.MixColumnInverse | src/base/unverified_aes256.cc:105-139 | the matrices of sections 5.1.3 and 5.3.3 of FIPS 197 undo each other on every column |
| AesBlock.MixColumnsInverse | src/base/unverified_aes256.cc:223-233 | and on every block |
| AesBlock.AddRoundKeyTwice | src/base/unverified_aes256.cc:93-98 | adding a round key twice changes nothing |
| AesCipher.CipherInverse | src/base/unverified_aes256.cc:293-319 | all 14 rounds are undone, in both orders, for every key schedule and block |
| AesCipher.RoundWrittenOut | src/base/unverified_aes256.cc:296-301 | rounds 1 to 13 are equal and add bytes 16n to 16n+15 of the key schedule |
| AesCipher.CipherWrittenOut | src/base/unverified_aes256.cc:293-305 | the first addition takes bytes 0 to 15, the last round bytes 224 to 239 and does not mix columns |
| AesCipher.CbcInverse | src/base/unverified_aes256.cc:143-179 | for any number of blocks, a plaintext decrypts a ciphertext if and only if the ciphertext encrypts the plaintext (section 6.2 of NIST SP 800-38A) |
| Aes256.AddRoundKey | src/base/unverified_aes256.cc:93-98 | adds the key to 16 bytes in place and to no others |
| Aes256.SubBytes | src/base/unverified_aes256.cc:211-215 | substitutes 16 bytes in place and no others |
| Aes256.InvSubBytes | src/base/unverified_aes256.cc:217-221 | the same with the inverse table |
| Aes256.ShiftRows | src/base/unverified_aes256.cc:235-262 | the chains of byte moves rotate row r by r columns |
| Aes256.InvShiftRows | src/base/unverified_aes256.cc:264-291 | the chains of byte moves rotate back |
| Aes256.MixColumnsImpl | src/base/unverified_aes256.cc:105-118 | the in-place column is the matrix product |
| Aes256.InvMixColumnsImpl | src/base/unverified_aes256.cc:120-139 | the in-place column is the product with the inverse matrix |
| Aes256.MixColumns | src/base/unverified_aes256.cc:223-227 | all four columns of the block, nothing else |
| Aes256.InvMixColumns | src/base/unverified_aes256.cc:229-233 | all four columns of the block, nothing else |
| Aes256.TransformECB | src/base/unverified_aes256.cc:293-305 | the loop over rounds is the cipher of section 5.1 of FIPS 197 |
| Aes256.InverseTransformECB | src/base/unverified_aes256.cc:307-319 | the loop over rounds is the inverse cipher |
| AesKeySchedule.RotatedStep | src/base/unverified_aes256.cc:190-196 | the byte equations of a first word are RotWord, SubWord and Rcon of section 5.2 of FIPS 197 |
| AesKeySchedule.MakeKeySchedule | src/base/unverified_aes256.cc:181-209 | the byte-wise loop with its early exit fills all 240 bytes in bounds with the words of section 5.2 of FIPS 197, Nk=8 and Nr=14 |
| AesCbc.RoundKeyWords | src/base/unverified_aes256.cc:293-305 | round r adds the words 4r to 4r+3 of the recurrence, section 5.1.4 of FIPS 197 |
| AesCbc.TransformCBC | src/base/unverified_aes256.cc:143-159 | the buffer becomes the CBC encryption of what it held, for any block count, and the rest stays |
| AesCbc.InverseTransformCBC | src/base/unverified_aes256.cc:161-179 | the buffer becomes the CBC decryption of what it held, chained to the original ciphertext |
| AesCbc.TransformAndBack | src/base/unverified_aes256.cc:143-179 | one after the other restores every byte of the buffer in place |
| AesCbc.EncryptsUnique | src/base/unverified_aes256.cc:143-159 | a plaintext has one ciphertext under a key and vector |
| Encryptor.GetEncryptedSize | src/base/encryptor.cc:116-122 | the smallest multiple of the block size strictly greater than the size |
| Encryptor.EncryptArray | src/base/encryptor.cc:183-210 | succeeds exactly with an available key and a non-empty buffer; the buffer then holds the encryption of the padded message, and nothing behind it changes |
| Encryptor.DecryptArray | src/base/encryptor.cc:212-257 | succeeds exactly when the buffer is the encryption of some non-empty message, and then holds it; what a failure leaves behind is stated too |
| Encryptor.FindMessage | src/base/encryptor.cc:235-256 | the padding checks accept exactly the padded forms of non-empty messages (section 6.3 of RFC 5652) |
| Encryptor.OneToOne | src/base/encryptor.cc:183-257 | a message has one ciphertext and a ciphertext has one message |
| Encryptor.EncryptString | src/base/encryptor.cc:155-167 | succeeds exactly on non-empty strings under an available key, with the promised size |
| Encryptor.DecryptString | src/base/encryptor.cc:169-181 | succeeds exactly on encryptions of non-empty strings |
| Encryptor.EncryptAndDecryptString | src/base/encryptor.cc:155-181 | every non-empty string comes back under every available key, and in between stands its encryption |
| Encryptor.DecryptAndEncryptString | src/base/encryptor.cc:155-181 | every accepted ciphertext is what encrypting its message gives |
| Sha1Padding.PaddingIsStandard | src/base/unverified_sha1.cc:119-185 | where the count does not wrap, the blocks are the padded message of section 5.1.1 of FIPS 180-4 if and only if the length in bits fits 64 bits |
| Sha1Padding.MessagesAreStandard | src/base/unverified_sha1.cc:105-190 | the same for every size that size_t admits, wrapped block counts included |
| Sha1Padding.TooLongForStandard | src/base/unverified_sha1.cc:161-166 | a message of 2^61 bytes or more has no padded form |
| Sha1Padding.PaddedUnique | src/base/unverified_sha1.cc:104-167 | a message has exactly one padded form |
| Sha1Padding.PaddedMessageIterator.constructor | src/base/unverified_sha1.cc:112-115 | starts at the first block |
| Sha1Padding.PaddedMessageIterator.FillNextMessage | src/base/unverified_sha1.cc:119-167 | fills the buffer with the current block of the padded message, whatever it held |
| Sha1Padding.PaddedMessageIterator.MoveNext | src/base/unverified_sha1.cc:169-169 | moves on by one block |
| Sha1Padding.ConcatenateMessages | src/base/unverified_sha1.cc:105-190 | all blocks together are the padded message of the standard if and only if the message is below 2^61 bytes |
| Sha1.FillSchedule | src/base/unverified_sha1.cc:205-212 | the array is the message schedule W of section 6.1.2 of FIPS 180-4 |
| Sha1.RunRounds | src/base/unverified_sha1.cc:214-227 | the loop over five variables is 80 rounds of the recursive specification |
| Sha1.HashBlock | src/base/unverified_sha1.cc:205-233 | adds the compressed block to the hash value |
| Sha1.AsByteStream | src/base/unverified_sha1.cc:91-103 | the 20 bytes spell the five words, most significant byte first |
| Sha1.MakeDigest | src/base/unverified_sha1.cc:192-243 | for every string, the result is the digest of the standard if and only if the string is below 2^61 bytes |
| Sha1Example.DigestOfAbc | src/base/unverified_sha1.cc:192-237 | the published digest of abc is the digest of abc: all constants, rotations, indices and functions taken together |
| Sha1.ConstantsAreRoots | src/base/unverified_sha1.cc:79-89 | the four constants are the integer parts of 2^30 times the square roots of 2, 3, 5 and 10 |
| Sha1.ChoosesBits | src/base/unverified_sha1.cc:49-55 | in rounds 0 to 19 every bit of x chooses between y and z |
| Sha1.AddsBits | src/base/unverified_sha1.cc:56-66 | in rounds 20 to 39 and 60 to 79 the words are added without carry |
| Sha1.MajorityOfBits | src/base/unverified_sha1.cc:58-63 | in rounds 40 to 59 every bit is the majority of the three |
| Sha1.DigestUnique | src/base/unverified_sha1.cc:192-243 | a message has exactly one digest |
| ClientSession.Client.constructor | src/client/client.cc:98-118 | a new client: unknown status, no session, an empty journal |
| ClientSession.Client.Call | src/client/client.cc:635-725 | at most one exchange, none in a bad status or without a factory; status and protocol version follow from the outcome |
| ClientSession.Client.CallAndCheckVersion | src/client/client.cc:621-633 | a failed call under another protocol version is a version mismatch |
| ClientSession.ReplyMeans | src/client/client.cc:692-713 | a reply is a parsed message of a server that speaks protocol 3 |
| ClientWorld.NoFaults | src/client/client.cc:747-820 | what does not excuse a failure: a launcher that obeys, and an answer of a server that is not old |
| ClientSession.Client.EnsureConnection | src/client/client.cc:139-188 | true exactly for a session that may go on or a server that starts; bad statuses end in SERVER_FATAL with the matching report; one start attempt for unknown or shut down, none otherwise |
| ClientSession.Client.Shutdown | src/client/client.cc:555-562 | sends SHUTDOWN once in a good status, waits once, and is true exactly when the wait succeeds; never starts a server |
| ClientSession.Client.StopServer | src/client/client.cc:778-799 | which of SHUTDOWN, waiting and terminating happens, from what the server answered |
| ClientSession.Client.RestartServer | src/client/client.cc:778-806 | asks a server that answers to end, terminates one that does not answer or does not end, and makes one start attempt; fails only by a failing launcher |
| ClientSession.Client.CheckVersionOrRestartServerInternal | src/client/client.cc:747-820 | an old server is restarted and asked once more, any other answer is final; success is a reply that is not old, failure after a restart is explained by a later fault |
| ClientSession.Client.CheckVersionOrRestartServer | src/client/client.cc:356-369 | true means an answered NO_OPERATION or a connection that may go on, false means SERVER_FATAL; an answer of a server that is not old settles it; at most two start attempts; SERVER_FATAL stays unless the protocol version was below the client's |
| ClientSession.Client.CreateSession | src/client/client.cc:452-484 | success is a successful CREATE_SESSION reply whose id the client takes; failure is explained by a fault in the log |
| ClientSession.Client.EnsureSession | src/client/client.cc:190-219 | success is SERVER_OK, in the session it had or in a new one with its SET_REQUEST; failure is explained by a fault; at most two starts on success and three on failure |
| ClientSession.Client.ResetHistory | src/client/client.cc:288-308 | empties the journal |
| ClientSession.Client.Append | src/client/client.cc:276-278 | an entry is only ever added to a journal that is not full, in both places that add one |
| ClientSession.Client.PushHistory | src/client/client.cc:261-285 | remembers consumed inputs only, up to 512, forgets them at a key with a result, and follows the mode of consumed inputs |
| ClientSession.JournalBound | src/client/client.cc:276-278 | exactly 512 entries are remembered and fewer than 512 replayed |
| ClientSession.Client.PlaybackHistory | src/client/client.cc:244-259 | resends the journal to the current session, in order, all of it or up to the first failure; a full one is dropped |
| ClientSession.Client.FirstTrial | src/client/client.cc:371-391 | from SERVER_OK, one exchange of this input, whose outcome alone decides the status; from other statuses, failure is explained by a fault |
| ClientSession.TrialDecides | src/client/client.cc:381-394 | a session lost to a crash or unknown to the server is tried again, an answer is accepted, anything else is fatal |
| ClientSession.Client.Retry | src/client/client.cc:393-421 | success is a new session, the replayed journal and a parsed reply to the input, in this order; failure is explained by a fault in the log, and the journal is gone exactly if there was a new session |
| ClientSession.Client.EnsureCallCommand | src/client/client.cc:371-425 | with a factory, true only after a parsed reply to this very input in this call; a session lost at the first trial is always tried again and fails only by a later fault; at most five start attempts; without a factory, exactly when it reports success for nothing |
| ClientSession.Client.DeleteSession | src/client/client.cc:486-503 | no call without a session; otherwise one DELETE_SESSION for it in a good status, and the id is cleared exactly on its reply |
| ClientSession.Client.GetConfig | src/client/client.cc:509-526 | one GET_CONFIG in a good status, and exactly the configuration of its reply |
| ClientSession.Client.SetConfig | src/client/client.cc:528-541 | sends the configuration once in a good status; the direct-mode keys follow it exactly when the server replied |
| ClientSession.Client.CallCommand | src/client/client.cc:613-619 | one message of this type for the current session in a good status, true exactly on a parsed reply; nothing is sent and nothing changes otherwise |
| ClientSession.Client.PingServer | src/client/client.cc:575-611 | never changes the client |
| ClientSession.Client.Reset | src/client/client.cc:822-826 | back to the unknown status |
| ClientRuns.Perform | src/client/client.cc:139-826 | every operation sends its own request first, to the current session and with the preferences, keeps the journal within 512 entries, makes at most five start attempts, and keeps SERVER_FATAL without opening a client unless it is Reset or CheckVersionOrRestartServer |
| ClientRuns.Run | src/client/client.cc:139-826 | the same for every sequence of operations |
| ClientReplay.JournalLeads | src/client/client.cc:261-285 | what the journal leaves out is not needed: replaying it still leads to the state after the input |
| ClientReplay.FreshHolds | src/client/client.cc:190-219 | a call that finds no session leaves a new session one input further, whatever the journal holds |
| ClientReplay.RecoveredHolds | src/client/client.cc:244-259 | a second trial leaves the new session where the journal leads, one input further |
| ClientReplay.CallRefines | src/client/client.cc:371-425 | whichever way a call succeeds, session and journal are one input further than the server that never crashed |
| ClientReplay.FullJournalForgets | src/client/client.cc:244-248 | recovery with 512 entries starts over from a new session |
| ClientReplay.CrashIsSurvived | src/client/client.cc:371-425 | a concrete log with a crash at the first trial that meets every hypothesis, the condition on faults included, and the state it ends in |
| ClientReplay.SendOne | src/client/client.cc:371-425 | the refinement is kept by every call that returns true without a loss after its last CREATE_SESSION, and a call whose only fault is a crash at its first trial has to return true |
| ClientReplay.SendAll | src/client/client.cc:317-425 | in a run of key and command calls in which only first trials meet faults, every call returns true and the session ends in the state of a server that never crashed |
| ClientForgets.NoticedElsewhereHappened | src/client/client.cc:371-391 | for every journal there is a run in which another operation notices the loss, and the call is in step only if the journal is empty |
| ClientForgets.CompositionLost | src/client/client.cc:570-573 | such a run: after two commands the session has seen one |
| ClientForgets.JournalFullHappened | src/client/client.cc:244-248 | for every full journal there is a run in which recovery is out of step |
| ClientForgets.FreshExactly | src/client/client.cc:371-391 | a call that makes a new session at its first trial is in step for every lawful server if and only if the journal is empty |
| ClientForgets.RecoveredExactly | src/client/client.cc:393-421 | a call that succeeds at its second trial is in step for every lawful server if and only if the journal is not full |
| Utf8.SplitFirstChar32 | src/base/util.cc:373-461 | decodes exactly the well-formed, shortest sequences of one to six bytes, and fails on everything else |
| Utf8.EncodeDecode | src/base/util.cc:524-575 | encoding and decoding gives the code point and the untouched rest back if and only if it is 1..0x3FFFFFF or 0x8000000..0x7FFFFFFF |
| Utf8.DecodeEncode | src/base/util.cc:373-461 | what was decoded is what encoding writes, for those code points and no others |
| Utf8.DecodesStandard | src/base/util.cc:373-461 | decoding yields a code point exactly in front of its sequence of section 2 of RFC 2279, for all code points up to 0x7FFFFFFF |
| Utf8.EncodesStandard | src/base/util.cc:524-575 | the encoder writes that sequence exactly for the encodable code points |
| Utf8.OnlyDecoded | src/base/util.cc:373-461 | what is read but not written: a NUL byte as 0, and six bytes after 0xFC as 0x4000000 to 0x7FFFFFF |
| Utf8Text.ToUtf32 | src/base/util.cc:343-350 | the code points up to the first malformed byte |
| Utf8Text.ToUtf8 | src/base/util.cc:352-358 | the concatenated encodings |
| Utf8Text.CheckValidUtf8 | src/base/util.cc:501-511 | true exactly when the whole string decodes |
| Utf8Text.Utf32RoundTrip | src/base/util.cc:343-358 | encodable code points give a valid string that decodes to them |
| Utf8Text.Utf8RoundTrip | src/base/util.cc:343-358 | a valid string is restored if and only if all its code points are encodable |
| Utf8Text.SplitLastChar32 | src/base/util.cc:463-499 | the last character is what follows the trailing bytes' lead, when it decodes completely |
| Utf8Text.ReverseIteration | src/base/util.cc:60-95 | on valid strings the backward reading is the reverse of the forward reading, and both leave nothing unread |
| Utf8Text.ValidIsRead | src/base/util.cc:501-511 | a string is valid exactly when forward reading leaves nothing |
| Utf8Text.ValidIsReadBackward | src/base/util.cc:463-511 | and exactly when backward reading leaves nothing |
| Utf8Text.ConstChar32Iterator.constructor | src/base/util.cc:60-63 | all code points of the string remain |
| Utf8Text.ConstChar32Iterator.Get | src/base/util.cc:65-68 | the first remaining code point |
| Utf8Text.ConstChar32Iterator.Next | src/base/util.cc:70-74 | removes one remaining code point, and shortens the text while not done |
| Utf8Text.ConstChar32Iterator.Done | src/base/util.cc:76-76 | true exactly when none remains |
| Utf8Text.ConstChar32ReverseIterator.constructor | src/base/util.cc:78-82 | all code points remain, last first |
| Utf8Text.ConstChar32ReverseIterator.Get | src/base/util.cc:84-87 | the first remaining code point |
| Utf8Text.ConstChar32ReverseIterator.Next | src/base/util.cc:89-93 | removes one remaining code point, and shortens the text while not done |
| Utf8Text.ConstChar32ReverseIterator.Done | src/base/util.cc:95-95 | true exactly when none remains |
| Utf8Text.IterateForward | src/base/util.cc:60-76 | a loop over the iterator yields the decoded string |
| Utf8Text.IterateBackward | src/base/util.cc:78-95 | a loop over the reverse iterator yields the reversed code points of a valid string |
| Csv.Unquote | src/base/util.cc:209-218 | unquotes in place; the write cursor never passes the read cursor and the unread part stays intact |
| Csv.SplitCSV | src/base/util.cc:195-236 | the fields of the line, for every input |
| Csv.QuotedField | src/base/util.cc:209-235 | a quoted field is read back whatever bytes it holds; blanks in front of it and anything between its closing quote and the comma are dropped |
| Csv.SplitJoined | src/base/util.cc:195-236 | splitting quoted and joined fields (section 2 of RFC 4180) gives back every list |
| Csv.SplitLine | src/base/util.cc:195-236 | a line of quoted and unquoted fields in any mixture, with blanks before and text behind the quotes, is split into its fields, except exactly that a last field of no characters is lost alone or behind a quoted one |
| Csv.TrailingComma | src/base/util.cc:225-232 | a comma at the end of any such line adds an empty field if and only if the last field is not quoted |
| Csv.TrailingCommaExamples | src/base/util.cc:225-232 | one input of each kind |
| Csv.BareField | src/base/util.cc:220-235 | an unquoted field, empty or not, is read back without the blanks in front of it, with an empty field behind it exactly if only a comma follows |
| Graphemes.SplitIntoGraphemes | src/base/util.cc:114-193 | conserves the concatenation, yields no empty grapheme, and starts one exactly at the declared boundaries |
| Graphemes.RegionalIndicatorsPairUp | src/base/util.cc:149-179 | inside a run of regional indicators there is a boundary exactly at even distance from its start (rules GB12 and GB13 of UAX #29) |
| Graphemes.FlagsPairUp | src/base/util.cc:149-179 | the same for the graphemes the program yields |
| Graphemes.MarksJoin | src/base/util.cc:130-167 | joiners, variation selectors, sound marks, modifiers and tags never start a grapheme behind another code point |
| Graphemes.JoinerJoins | src/base/util.cc:165-167 | nothing starts a grapheme behind a zero width joiner |
| Graphemes.KeycapJoins | src/base/util.cc:161-163 | a keycap joins exactly a variation selector 16 or a joiner |
| Graphemes.OthersStart | src/base/util.cc:181-189 | everything else starts a grapheme |
| Graphemes.DivisionUnique | src/base/util.cc:114-193 | those requirements determine the division |
| JisX0208.GenerateJisX0208Bitmap | src/base/gen_character_set.py:199-278 | index and blocks are the compressed bitmap of the category list, and the index of 65536 code points fits the 64 bits it is printed with |
| JisX0208.PackWord | src/base/gen_character_set.py:233-241 | bit j of a word is set exactly when code point 32i+j is listed |
| JisX0208.CompressBlocks | src/base/gen_character_set.py:243-268 | the index marks exactly the blocks with a value, and the data are those blocks in order |
| JisX0208.RankByPopCount | src/base/util.cc:1036-1038 | shifting bit i to the top and counting gives the number of set bits up to i |
| JisX0208.LookupAgrees | src/base/util.cc:1022-1047 | every lookup stays inside the table and, outside the two shortcuts, is true exactly for the code points below 65536 in category JISX0208, JISX0212 or JISX0213 |
| CodeGen.RenderConcat | src/base/codegen_bytearray_stream.cc:134-145 | writing two pieces one after the other is writing them at once |
| CodeGen.RenderAt | src/base/codegen_bytearray_stream.cc:134-145 | byte i is written at its place, with a line break exactly at every twentieth |
| CodeGen.RenderInjective | src/base/codegen_bytearray_stream.cc:134-145 | different bytes give different text |
| CodeGen.RenderReads | src/base/codegen_bytearray_stream.cc:134-145 | every byte is read back from two hexadecimal digits between 0x and a comma, with a line break at every twentieth |
| CodeGen.SizeReads | src/base/codegen_bytearray_stream.cc:82-84 | the printed size is read back as the number of bytes |
| CodeGen.HeaderExample | src/base/codegen_bytearray_stream.cc:67-69 | the text in front of the bytes, for one name |
| CodeGen.TrailerExample | src/base/codegen_bytearray_stream.cc:82-84 | the text behind the bytes, for one name and size |
| CodeGen.CodeGenByteArrayStreamBuf.constructor | src/base/codegen_bytearray_stream.cc:50-58 | closed, with nothing written and nothing pending |
| CodeGen.CodeGenByteArrayStreamBuf.WriteBytes | src/base/codegen_bytearray_stream.cc:134-145 | appends the rendering that continues the count |
| CodeGen.CodeGenByteArrayStreamBuf.Overflow | src/base/codegen_bytearray_stream.cc:113-131 | writes what is pending and the extra byte, or fails and changes nothing when closed |
| CodeGen.CodeGenByteArrayStreamBuf.OpenVarDef | src/base/codegen_bytearray_stream.cc:61-71 | opens exactly when closed and named, and keeps what is pending |
| CodeGen.CodeGenByteArrayStreamBuf.CloseVarDef | src/base/codegen_bytearray_stream.cc:74-87 | the text is the unbuffered rendering of all bytes, and the printed size is their number |
| CodeGen.CodeGenByteArrayStreamBuf.Put | src/base/codegen_bytearray_stream.cc:113-131 | one more byte, buffered or not |
| CodeGen.CodeGenByteArrayStreamBuf.Xsputn | src/base/codegen_bytearray_stream.cc:99-110 | more bytes, whether they fit the buffer or not |
| CodeGen.CodeGenByteArrayStreamBuf.Sync | src/base/codegen_bytearray_stream.cc:90-95 | flushes without changing what has been accepted |
| CodeGen.EmitDefinition | src/base/codegen_bytearray_stream.cc:61-145 | for every buffer size and every sequence of writes and flushes, the emitted definition is that of an unbuffered writer |

## Left out

- `NormalizeNumbersWithSuffix`, and the printers other than `ArabicToKanji` (separators, radixes, roman and circled forms): shorter code of the same kind.
- NumberBytes.BytesRoundTrip: covers the styles that are not formal; the formal texts with 阡 or 萬 are refused on characters already.
- `ArabicToKanji`'s candidate descriptions are constants of their style.
- Splitting a string into characters before graphemes are formed: the length table of `base/strings` is not part of this model.
- Fields of the CSV reader are bytes; multi-byte characters are not looked at, as in the program.
- The text formatting of the generated bitmap (comments, four words a line): the model keeps the words of each block.
- Sinks that fail while a definition is written: the output stream of the generator always accepts.
- Key derivation from a password, `ProtectData` and `UnprotectData`, random salts: operating system calls.
- Sizes so large that adding a block of padding overflows `size_t` in the encryptor: no such buffer exists.
- The bodies of `ServerLauncher`, the IPC transport and protocol buffer encoding: outcomes of the environment. `StartServer` does not call back into the client.
- A null server launcher, and the process id handed to `WaitServer`: the program dereferences the launcher, and the id has no effect on the client.
- The macOS branch of `ResetHistory`, debug-only branches, writing the journal to a file, launching tools and the browser.
- The output object of a call that failed to parse: its contents are unspecified, and so is the output of a call that returns false.
- ClientReplay.SendAll: runs start with an empty journal and a session that is not OK, and only hold key and command calls; other operations can notice a crash that is then not replayed, as described above.
- Several processes sharing one server and the process mutex: decided by the operating system.
