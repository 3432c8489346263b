# eurotoken in Dafny

A model of the core of eurotoken, a prototype offline e-cash system written in Kotlin on top of
IPv8, with proofs about that model. It covers:

- **Token record codec** (`Tokens`). A token is a fixed-width record
  `id(8) ∥ value(1) ∥ sender(74) ∥ receiver(74) ∥ signature(64)`, 221 bytes in all.
  `serialize` writes records back to back after the 23-byte IPv8 prefix. `deserialize` reads them
  back and rejects a buffer whose payload is not a whole number of records. The sender signs
  `id ∥ value ∥ sender ∥ receiver`, and `verifySenderSignature` checks that message.
- **Datagram batching** (`EuroCommunity`). `send` cuts a token collection into datagrams of at
  most six records. Each datagram is the community prefix, the message id `7` and the records. The
  sent tokens are removed from the collection. `getFirstPeer` finds a peer to pay.
- **Client wallet** (`ClientCommunity`). The wallet has two pools. Verified tokens came from the
  verifier; unverified tokens came from other clients.
  - `sendToPeer` checks the balance, re-addresses and re-signs `amount` verified tokens to the
    peer, removes them from the pool and sends them.
  - `receive` keeps only tokens addressed to this client whose signature verifies. It sorts them
    into the two pools by sender, then sends the whole unverified pool to the verifier
    (`sendToBank`), which empties that pool.
  - `getVerifier` looks the verifier up among the peers, once.
- **Verifier ledger** (`VerifierCommunity`). The ledger is a map from token id to the
  verifier's record of the token's custody chain.
  - `createAndSend` mints tokens of value 1. Each has one verifier-signed link to the receiver,
    and the ledger keeps it without that link.
  - `onEvaComplete` runs each submitted token through the source's checks in order. A token is
    skipped if it is already verified, has a foreign verifier, an unknown id, a changed value or
    failing links, or does not continue from the anchor the ledger expects (a suspected double
    spend).
  - An accepted token's links are added to the ledger. The client gets back a compacted token
    (`signByVerifier`): one link, anchored at the last submitted proof.
- **Legacy token blob** (`EuroGenerator`): `"TOKEN" ∥ nonce(128) ∥ signature(64)`,
  197 bytes, and its check.
- **Benchmark packet codec** (`PerformanceMode`). Tokens are `Long`s held in an insertion-ordered
  set. `send` fills a 1492-byte buffer with a 2-byte count and up to 186 eight-byte tokens, takes
  them out of the set and sends the buffer. `receive` reads a buffer back into the set.
- **`median`** (`MeasureSerialize`): sort, then take the middle element, or the mean of the two
  middle elements.

Signatures are uninterpreted. `Crypto.Scheme` bundles `pub`, `sign` and `verify`. The one
fact assumed about them is the hypothesis `Crypto.Sound`: a genuine signature verifies under the
matching public key. Lemmas that need it take it as a `requires`.

Tokens are values. The source updates token objects in place (`sign`, the field setters,
`signByVerifier`, `recipients.addAll`), and the model writes each of those as a value update.
The token pools and the benchmark's `MutableSet<Long>` are sequences in iteration order. Each
socket is a log of what was sent. `Random` becomes a parameter: the nonce of `generateToken`,
and the ids and anchors of `createAndSend` (`Mint`).

Where the source's arithmetic differs from Dafny's, the model spells it out:

- Kotlin's `%` truncates, so its remainder of a negative number is negative (`Bytes.KotlinRem`).
- `Long` addition wraps (`Bytes.WrapLong`).
- `/ 2` truncates toward zero (`Bytes.HalfTowardZero`).
- `Short` and `Long` are bounded subset types.

Where the code and the design description disagree, the model follows the code:

- The verifier's double-spend handling is `findDoubleSpend`, whose body is commented out. A token
  that does not continue from the expected anchor is therefore only skipped; there is no
  divergence scan.
- `onEvaComplete` calls `last()` on the stored and submitted recipient lists. When a list is
  empty, that exception ends the whole batch: no reply is sent, and the ledger keeps the updates
  made so far. The design says that one bad token never stops its siblings; the code lets it.
- The verifier code uses a newer token shape than `Token.kt`: a verifier key, a genesis hash
  and recipient links. That shape is modelled as its own datatype, `ChainToken`, and
  `verifyRecipients` is a parameter of the verifier.

## Model

| member | source | states |
|---|---|---|
| Tokens.TokenSizeIsFieldSum | src/main/kotlin/Token.kt:41-46 | the record size 221 is the sum of the five field sizes 8 + 1 + 74 + 74 + 64 |
| Tokens.Encode | src/main/kotlin/Token.kt:60-73 | the record of a token whose fields have their widths is exactly 221 bytes |
| Tokens.Records | src/main/kotlin/Token.kt:58-74 | the records of n tokens, written back to back, take 221·n bytes |
| Tokens.Parse | src/main/kotlin/Token.kt:92-113 | reading a record at any offset with 221 bytes left yields a token whose fields have their widths |
| Tokens.WholeRecordsBounds | src/main/kotlin/Token.kt:82-87 | a buffer that passes the size check is at least 23 bytes long, and is the prefix plus a whole number of records |
| Tokens.RecordCount | src/main/kotlin/Token.kt:87 | the token count of a buffer that passes the size check is n with 23 + 221·n = size |
| Tokens.Decoded | src/main/kotlin/Token.kt:77-119 | no tokens when `(size - 23) % 221 != 0` (Kotlin remainder); otherwise exactly `(size - 23) / 221` tokens, each with its field widths |
| Tokens.WholeRecordsOf | src/main/kotlin/Token.kt:82-87 | a prefix followed by n records passes the size check and holds exactly n records |
| Tokens.ShortBufferDecodesEmpty | src/main/kotlin/Token.kt:82-85 | every buffer shorter than the 23-byte prefix deserializes to no tokens, because the truncating remainder is negative |
| Tokens.DecodedFieldOffsets | src/main/kotlin/Token.kt:90-116 | token k is read from offset 23 + 221k: id at +0, value at +8, sender at +9, receiver at +83, signature at +157 |
| Tokens.RecordsAt | src/main/kotlin/Token.kt:58-74 | bytes [221k, 221k + 221) of the records of a collection are the record of its token k |
| Tokens.ParseEncode | src/main/kotlin/Token.kt:60-113 | reading a record where a token's record was written gives back that token, field for field |
| Tokens.ParseRecordAt | src/main/kotlin/Token.kt:53-119 | in `prefix ∥ records(ts)`, the record at 23 + 221k reads back as token k |
| Tokens.RoundTrip | src/main/kotlin/Token.kt:53-119 | any 23-byte prefix followed by the records of the tokens deserializes to the same tokens, in order |
| Tokens.ArrayCopy | src/main/kotlin/Token.kt:60 | `System.arraycopy` into the buffer: only the target range changes, and it holds the source |
| Tokens.WriteRecord | src/main/kotlin/Token.kt:60-73 | one pass of the loop writes the token's record at the cursor and changes nothing else |
| Tokens.Serialize | src/main/kotlin/Token.kt:53-75 | the buffer becomes its old 23-byte prefix, then the records of the tokens in order, then its old bytes past 23 + 221·n; it needs a buffer of at least 23 + 221·n bytes |
| Tokens.Deserialize | src/main/kotlin/Token.kt:77-119 | the loop that advances the cursor field by field returns exactly `Decoded(data)` |
| Tokens.SignVerifies | src/main/kotlin/Token.kt:28-35 | re-signing a token with its sender's key makes `verifySenderSignature` true; only the signature changes, so it stays equal to the old token |
| Tokens.CreateVerifies | src/main/kotlin/Token.kt:48-51 | a token created with the sender's key verifies, and has the record widths when id and receiver do |
| Tokens.EqualsIgnoresPayload | src/main/kotlin/Token.kt:17-26 | equality looks only at id content: value, sender, receiver and signature may differ; different ids are never equal |
| Tokens.Equals | src/main/kotlin/Token.kt:17-26 | `equals` compares id content only (by `contentEquals`); its properties are `EqualsIgnoresPayload` |
| Tokens.SignedMessage | src/main/kotlin/Token.kt:28-35 | the signed message is id ∥ value ∥ sender ∥ receiver; for a well-sized token it is 157 bytes with the fields at 0, 8, 9 and 83 |
| Tokens.SignedMessageInjective | src/main/kotlin/Token.kt:28-35 | two well-sized tokens sign the same message iff they agree on everything but the signature |
| Tokens.Sign | src/main/kotlin/Token.kt:33-35 | `sign` changes only the signature, so the signed message stays the same |
| Tokens.Create | src/main/kotlin/Token.kt:48-51 | `create` stores the four fields as given, with a signature over the token's own signed message; it is `sign` applied to a token with those fields, whatever its old signature |
| Tokens.VerifySenderSignature | src/main/kotlin/Token.kt:28-31 | the signature verifies under the sender field, read as a public key, over the signed message |
| EuroCommunity.MaxTokensPerPacketIsSix | src/main/kotlin/EuroCommunity.kt:73-77 | (1500 - 23) / 221 = 6; six records fit a 1500-byte datagram and seven do not |
| EuroCommunity.FirstPayable | src/main/kotlin/EuroCommunity.kt:34-41 | the index found holds a peer that is neither the verifier nor us, and every earlier peer is one of those; with no index, no peer qualifies |
| EuroCommunity.GetFirstPeer | src/main/kotlin/EuroCommunity.kt:29-42 | no peers gives none; otherwise the first peer whose key is neither the verifier's nor ours, and none exactly when no peer qualifies |
| EuroCommunity.Header | src/main/kotlin/EuroCommunity.kt:48-50 | the packet header is the community prefix followed by the message id 7 |
| EuroCommunity.RemoveAll | src/main/kotlin/EuroCommunity.kt:63 | a list's `removeAll` keeps a token iff its id matches no taken token: every kept token was there and untaken, and every untaken token is kept |
| EuroCommunity.RemoveAllAppend | src/main/kotlin/EuroCommunity.kt:63 | a list's removal keeps the order: removing from a + b is removing from a, then from b |
| EuroCommunity.RemoveAllSingle | src/main/kotlin/EuroCommunity.kt:63 | one token stays exactly when its id was not taken |
| EuroCommunity.RemoveSent | src/main/kotlin/EuroCommunity.kt:57-63 | the removal after each round never adds a token; from a set (identity-hashed) it drops exactly the tokens just taken from its front |
| EuroCommunity.ExactRound | src/main/kotlin/EuroCommunity.kt:55-64 | for a set, or a list with distinct ids, the round takes exactly chunk p and leaves exactly the tokens after it |
| EuroCommunity.RemoveAllPrefixShrinks | src/main/kotlin/EuroCommunity.kt:57-64 | removing the first k tokens' ids removes at least k tokens, so the collection empties as `unsentAmount` reaches 0 |
| EuroCommunity.RemoveAllDistinctPrefix | src/main/kotlin/EuroCommunity.kt:57-63 | with distinct ids, removing the first k tokens leaves exactly the tokens after them |
| EuroCommunity.Take | src/main/kotlin/EuroCommunity.kt:57 | `take(n)` is the first min(n, size) tokens |
| EuroCommunity.Socket.Send | src/main/kotlin/EuroCommunity.kt:60-61 | the socket appends the datagram to what it has sent |
| EuroCommunity.SendPacket | src/main/kotlin/EuroCommunity.kt:57-61 | one round sends the first 23 + 221·sendAmount bytes of the packet to the receiver; the header stays, and a full chunk is sent as header ∥ records |
| EuroCommunity.ProgressStep | src/main/kotlin/EuroCommunity.kt:52-64 | each round sends min(unsent, 6) tokens, which is the next chunk size, and keeps count of progress |
| EuroCommunity.SendingStep | src/main/kotlin/EuroCommunity.kt:53-65 | one loop round keeps the loop invariant: one more datagram, described by `SentChunk`, and, with distinct ids, the collection is the unsent suffix |
| EuroCommunity.Send | src/main/kotlin/EuroCommunity.kt:44-66 | `send` returns the collection empty and appends ⌈n/6⌉ datagrams to the receiver; datagram j is 23 + 221·min(n - 6j, 6) bytes and starts with prefix ∥ 7; for a set, or a list whose ids are distinct, it is exactly that header followed by the records of the next min(n - 6j, 6) tokens from 6j on |
| EuroCommunity.PacketCountIs | src/main/kotlin/EuroCommunity.kt:52-65 | the loop ends after exactly ⌈n/6⌉ rounds |
| EuroCommunity.PacketFitsDatagram | src/main/kotlin/EuroCommunity.kt:55-61 | each datagram carries at most 6 tokens and is never longer than 1500 bytes |
| EuroCommunity.ChunksArePrefix | src/main/kotlin/EuroCommunity.kt:57-63 | the first p datagrams carry the first min(6p, n) tokens, in collection order |
| EuroCommunity.ChunksCoverAll | src/main/kotlin/EuroCommunity.kt:52-65 | all the datagrams together carry every token exactly once, in collection order |
| EuroCommunity.ChunksShareNoId | src/main/kotlin/EuroCommunity.kt:57-63 | with distinct ids, no token id appears in two different datagrams |
| EuroCommunity.SentDecodes | src/main/kotlin/EuroCommunity.kt:59-61 | for a set, or a list whose ids are distinct, each datagram `send` emits deserializes to exactly its chunk of tokens |
| ClientCommunity.FindByKey | src/main/kotlin/client/ClientCommunity.kt:53-57 | the index found is the first peer with the given key; with no index, no peer has it |
| ClientCommunity.GetVerifier | src/main/kotlin/client/ClientCommunity.kt:48-60 | the first peer whose key is the verifier key, or none exactly when no peer has that key (no peers at all included) |
| ClientCommunity.AcceptedIff | src/main/kotlin/client/ClientCommunity.kt:64-74 | `receive` keeps a token iff it arrived, is addressed to this client and its sender signature verifies |
| ClientCommunity.BySenderIff | src/main/kotlin/client/ClientCommunity.kt:76-80 | a kept token goes to the verified pool iff its sender is the verifier key, and to the unverified pool iff not |
| ClientCommunity.BySenderSplits | src/main/kotlin/client/ClientCommunity.kt:76-80 | the two pools share out the kept tokens, none lost and none counted twice |
| ClientCommunity.Acceptable | src/main/kotlin/client/ClientCommunity.kt:66-74 | a token passes `receive`'s checks iff it is addressed to this client and its sender signature verifies |
| ClientCommunity.Accepted | src/main/kotlin/client/ClientCommunity.kt:63-74 | the tokens of a batch that pass the checks, in batch order, never more than the batch (`AcceptedIff` says which) |
| ClientCommunity.BySender | src/main/kotlin/client/ClientCommunity.kt:76-80 | the tokens of a batch from the verifier, or from anyone else, in batch order (`BySenderIff` says which) |
| ClientCommunity.Resigned | src/main/kotlin/client/ClientCommunity.kt:31-36 | one re-addressed, re-signed token per token taken (`ResignedVerifies` says what each holds) |
| ClientCommunity.ReceiveStep | src/main/kotlin/client/ClientCommunity.kt:64-81 | one more received token is appended to exactly the pool its sender selects, or to neither if it is dropped |
| ClientCommunity.ResignedVerifies | src/main/kotlin/client/ClientCommunity.kt:32-36 | every token sent to a peer keeps its id and value, names this client as sender and the peer as receiver, and its new signature verifies |
| ClientCommunity.ResignedWellSized | src/main/kotlin/client/ClientCommunity.kt:32-36 | re-addressing and re-signing keeps the record widths |
| ClientCommunity.Client.constructor | src/main/kotlin/client/ClientCommunity.kt:11-15 | a new wallet has both pools empty and the verifier not yet resolved |
| ClientCommunity.Client.SendToPeer | src/main/kotlin/client/ClientCommunity.kt:25-41 | with balance < amount, or a negative amount, nothing changes and nothing is sent; otherwise the first `amount` verified tokens leave the pool, the unverified pool is unchanged, and they are sent to the peer re-addressed and re-signed, in batches as `send` makes them |
| ClientCommunity.Client.SendToBank | src/main/kotlin/client/ClientCommunity.kt:43-46 | the verifier is resolved once; if found, the whole unverified pool is sent to it in ⌈n/6⌉ datagrams, datagram j holding exactly the header and the records of tokens 6j onwards, even when two tokens share an id, and the pool ends empty; if not, the lazy `!!` throws and nothing changes |
| ClientCommunity.Client.PoolStep | src/main/kotlin/client/ClientCommunity.kt:76-80 | admitting one more token keeps each pool equal to its start plus the kept tokens from its side |
| ClientCommunity.Client.Admit | src/main/kotlin/client/ClientCommunity.kt:66-80 | one loop round: a token for someone else, or one whose signature fails, is dropped; otherwise it is appended to the verified pool iff the verifier sent it, else to the unverified pool |
| ClientCommunity.Client.AdmitAll | src/main/kotlin/client/ClientCommunity.kt:63-81 | after the loop, each pool is its old contents plus the kept tokens from its side, in arrival order |
| ClientCommunity.Client.Receive | src/main/kotlin/client/ClientCommunity.kt:62-87 | the verified pool gains the kept verifier-sent tokens; the old unverified pool plus the other kept tokens go to the bank, chunk by chunk and record for record as `SendToBank` sends them, and the pool ends empty, or they stay if the verifier cannot be found |
| VerifierCommunity.CompactionMessage | src/main/kotlin/verifier/VerifierCommunity.kt:141 | the verifier signs id ∥ value ∥ anchor ∥ recipient, with value and anchor at fixed offsets |
| VerifierCommunity.ExpectedAnchor | src/main/kotlin/verifier/VerifierCommunity.kt:84-88 | the stored genesis hash when the count is 0, else the last stored link's proof; none (the `last()` exception) exactly when the count is nonzero but no link is stored |
| VerifierCommunity.Stripped | src/main/kotlin/verifier/VerifierCommunity.kt:34-37 | `removeLast` and `numRecipients = 0`: id, value, verifier and anchor unchanged, one link fewer, count 0 |
| VerifierCommunity.StoreAll | src/main/kotlin/verifier/VerifierCommunity.kt:19-37 | the ledger after minting holds each minted token, stripped, under its id (`StoreAllEntries` says which entries) |
| VerifierCommunity.Verifier.constructor | src/main/kotlin/verifier/VerifierCommunity.kt:10 | a new verifier starts with an empty ledger and has sent nothing |
| VerifierCommunity.Verifier.SignByVerifier | src/main/kotlin/verifier/VerifierCommunity.kt:134-145 | the token keeps id, value and verifier; its anchor becomes the given hash and its chain one link to the recipient, count 1 |
| VerifierCommunity.Verifier.SignByVerifierVerifies | src/main/kotlin/verifier/VerifierCommunity.kt:138-143 | the new link's proof verifies under the verifier's key over id ∥ value ∥ anchor ∥ recipient |
| VerifierCommunity.Verifier.Minted | src/main/kotlin/verifier/VerifierCommunity.kt:19-21 | a minted token has value 1, our verifier key, its own anchor and one link to the receiver |
| VerifierCommunity.Verifier.StepOn | src/main/kotlin/verifier/VerifierCommunity.kt:58-107 | a token is only accepted when its id is in the ledger and it carries at least one link |
| VerifierCommunity.Verifier.Process | src/main/kotlin/verifier/VerifierCommunity.kt:58-107 | the `onEvaComplete` loop: each token in turn is skipped, accepted, or aborts the batch (`ProcessPreserves`, `RepliesAreAccepted`) |
| VerifierCommunity.Verifier.SkipReasons | src/main/kotlin/verifier/VerifierCommunity.kt:59-82 | count 1, a foreign verifier, an unknown id, a changed value and failing links each lead to a skip, checked in that order |
| VerifierCommunity.Verifier.SkipContinues | src/main/kotlin/verifier/VerifierCommunity.kt:58-111 | a skipped token leaves the ledger and the reply alone, and processing goes on with the next token |
| VerifierCommunity.Verifier.AcceptedIff | src/main/kotlin/verifier/VerifierCommunity.kt:59-104 | a token is accepted iff it passes every check, its genesis hash is the expected anchor, and it has links |
| VerifierCommunity.Verifier.AcceptanceAppends | src/main/kotlin/verifier/VerifierCommunity.kt:98-99 | on acceptance, the stored links become old ++ submitted and the count grows by their number; id, value, verifier and anchor are unchanged |
| VerifierCommunity.Verifier.ReplyAnchorsAtLedger | src/main/kotlin/verifier/VerifierCommunity.kt:84-106 | the reply is anchored at exactly the proof the ledger now expects, its one link goes to the last recipient, and that link verifies under the verifier's key |
| VerifierCommunity.Verifier.SecondSpendRejected | src/main/kotlin/verifier/VerifierCommunity.kt:90-96 | once a token is accepted with a new anchor, a second submission of it from the old anchor is skipped as a suspected double spend |
| VerifierCommunity.Verifier.ProcessPreserves | src/main/kotlin/verifier/VerifierCommunity.kt:58-107 | a batch keeps the ledger's ids, keeps each entry filed under its id with its count equal to its links, and changes no value, verifier or anchor |
| VerifierCommunity.Verifier.RepliesAreAccepted | src/main/kotlin/verifier/VerifierCommunity.kt:58-111 | there are no more replies than submitted tokens, and each reply has count 1 and the id of a submitted token |
| VerifierCommunity.Verifier.Handle | src/main/kotlin/verifier/VerifierCommunity.kt:59-106 | one loop round: a skip changes nothing; an abort changes nothing and ends the batch; an acceptance stores the extended chain and returns the compacted token |
| VerifierCommunity.Verifier.OnEvaComplete | src/main/kotlin/verifier/VerifierCommunity.kt:42-112 | the ledger becomes what `Process` gives the batch; the replies go to the peer in one message, unless an exception ended the batch |
| VerifierCommunity.Verifier.CreateAndSend | src/main/kotlin/verifier/VerifierCommunity.kt:16-40 | one token is minted per mint to the receiver and all are sent in one message; the ledger gets each one without its link and with count 0 |
| VerifierCommunity.Verifier.MintAnchorsAtGenesis | src/main/kotlin/verifier/VerifierCommunity.kt:19-37 | a stored fresh entry expects its first continuation from the sent token's genesis hash, and the sent link verifies |
| VerifierCommunity.Verifier.StoreAllEntries | src/main/kotlin/verifier/VerifierCommunity.kt:19-26 | after minting, exactly the old ids and the minted ids are in the ledger; minted ones have count 0 under their own id, and other entries are untouched |
| EuroGenerator.GenerateToken | src/main/kotlin/EuroGenerator.kt:25-29 | the blob is 197 bytes: "TOKEN", the nonce, then the generator's signature over the first 133 bytes |
| EuroGenerator.VerifyToken | src/main/kotlin/EuroGenerator.kt:31-42 | false when the size is not 197 or bytes [0, 5) are not "TOKEN"; otherwise true iff bytes [133, 197) verify over bytes [0, 133) |
| EuroGenerator.GeneratedTokenVerifies | src/main/kotlin/EuroGenerator.kt:25-42 | every generated blob passes `verifyToken`, whatever the nonce |
| EuroGenerator.GenerateTokenInjective | src/main/kotlin/EuroGenerator.kt:26-27 | two blobs are equal iff their nonces are |
| PerformanceMode.MaxTokenSendAmountIs186 | measurements/PerformanceMode/src/main/kotlin/Main.kt:12-17 | (1492 - 2) / 8 = 186, and a full packet of 2 + 8·186 = 1490 bytes fits the buffer |
| PerformanceMode.LeRoundTrip | measurements/PerformanceMode/src/main/kotlin/Main.kt:26-28 | reading back n bytes written least significant first gives the number written |
| PerformanceMode.EncodeShort | measurements/PerformanceMode/src/main/kotlin/Main.kt:68 | `putShort` writes 2 bytes |
| PerformanceMode.DecodeShort | measurements/PerformanceMode/src/main/kotlin/Main.kt:86 | `getShort` reads 2 bytes as a signed 16-bit value (`ShortRoundTrip`) |
| PerformanceMode.EncodeLong | measurements/PerformanceMode/src/main/kotlin/Main.kt:72 | `putLong` writes 8 bytes |
| PerformanceMode.DecodeLong | measurements/PerformanceMode/src/main/kotlin/Main.kt:89 | `getLong` reads 8 bytes as a signed 64-bit value (`LongRoundTrip`) |
| PerformanceMode.ShortRoundTrip | measurements/PerformanceMode/src/main/kotlin/Main.kt:68 | `getShort` reads back what `putShort` wrote, for every `Short` |
| PerformanceMode.LongRoundTrip | measurements/PerformanceMode/src/main/kotlin/Main.kt:72 | `getLong` reads back what `putLong` wrote, for every `Long` |
| PerformanceMode.EncodeLongsAt | measurements/PerformanceMode/src/main/kotlin/Main.kt:71-74 | token k of a run of `putLong`s sits at bytes [8k, 8k + 8) |
| PerformanceMode.Readable | measurements/PerformanceMode/src/main/kotlin/Main.kt:86-89 | whatever the count says, `receive` reads at most the 186 tokens one buffer holds |
| PerformanceMode.PacketRoundTrip | measurements/PerformanceMode/src/main/kotlin/Main.kt:65-89 | a packet `send` filled announces its token count and reads back as those tokens, in order |
| PerformanceMode.AddAllIsUnion | measurements/PerformanceMode/src/main/kotlin/Main.kt:89 | `tokens.add` keeps a set: no duplicates, old members first and in place, and exactly the old and the added values |
| PerformanceMode.AddAll | measurements/PerformanceMode/src/main/kotlin/Main.kt:89 | repeated `tokens.add` on an insertion-ordered set (`AddAllIsUnion`, `AddAllFresh`, `AddAllAppend`) |
| PerformanceMode.AddAllFresh | measurements/PerformanceMode/src/main/kotlin/Main.kt:89 | tokens the set does not yet hold, none alike, are appended in order |
| PerformanceMode.AddAllAppend | measurements/PerformanceMode/src/main/kotlin/Main.kt:89 | adding two batches in turn is adding their concatenation |
| PerformanceMode.ChunksConcat | measurements/PerformanceMode/src/main/kotlin/Main.kt:61-79 | the first p packets carry the first min(186p, n) tokens in order |
| PerformanceMode.AddBatchesFlat | measurements/PerformanceMode/src/main/kotlin/Main.kt:88-89 | receiving packet after packet adds the concatenation of their tokens |
| PerformanceMode.ReadsAreChunks | measurements/PerformanceMode/src/main/kotlin/Main.kt:62-89 | each packet `send` made reads back as its chunk |
| PerformanceMode.ReceiveAllPackets | measurements/PerformanceMode/src/main/kotlin/Main.kt:52-110 | receiving all packets of a `send` in order adds exactly the tokens sent, in order; into a set holding none of them, they are appended |
| PerformanceMode.SendStep | measurements/PerformanceMode/src/main/kotlin/Main.kt:59-79 | each round takes the next min(unsent, 186) tokens, and the loop ends after exactly ⌈n/186⌉ rounds |
| PerformanceMode.Benchmark.constructor | measurements/PerformanceMode/src/main/kotlin/Main.kt:152 | the set is the generated values with duplicates dropped, and nothing has been sent |
| PerformanceMode.Benchmark.FillPacket | measurements/PerformanceMode/src/main/kotlin/Main.kt:62-74 | the buffer starts with the count and the next `sendAmount` tokens, and exactly those tokens are removed from the front of the set |
| PerformanceMode.Benchmark.SendPacket | measurements/PerformanceMode/src/main/kotlin/Main.kt:62-76 | one round sends the whole buffer holding the next chunk, and removes that chunk from the set |
| PerformanceMode.Benchmark.Send | measurements/PerformanceMode/src/main/kotlin/Main.kt:52-82 | with amount > balance, nothing changes; otherwise the set loses exactly its first `amount` tokens (none for amount ≤ 0), and the packets sent are one per chunk of 186, packet j holding tokens 186j onwards |
| PerformanceMode.Benchmark.Receive | measurements/PerformanceMode/src/main/kotlin/Main.kt:84-110 | the set gains, in order and without duplicates, the tokens at offsets 2, 10, … up to the count, none for a count of 0 or less and at most 186; it reports failure exactly when the count exceeds 186, where the next read would run past the buffer |
| PerformanceMode.AddNextRead | measurements/PerformanceMode/src/main/kotlin/Main.kt:89 | reading one more token adds it unless the set already holds it |
| PerformanceMode.ReceiveStops | measurements/PerformanceMode/src/main/kotlin/Main.kt:88-89 | the loop stops after min(count, 186) tokens, exactly when the count is reached or the buffer runs out; the set stays a set |
| MeasureSerialize.Insert | src/main/kotlin/evatest/MeasureSerialize.kt:9 | inserting into a sorted list gives a sorted list with one more element and the same elements plus the new one |
| MeasureSerialize.Sort | src/main/kotlin/evatest/MeasureSerialize.kt:9 | `sorted()` returns an ascending permutation of the samples |
| MeasureSerialize.SortedUnique | src/main/kotlin/evatest/MeasureSerialize.kt:9 | two sorted lists with the same elements are equal |
| MeasureSerialize.MiddleOf | src/main/kotlin/evatest/MeasureSerialize.kt:10-13 | the middle of a sorted list with exact arithmetic lies between the elements at (n-1)/2 and n/2 |
| MeasureSerialize.MiddleOfWrapped | src/main/kotlin/evatest/MeasureSerialize.kt:10-13 | the source's middle, with wrapping `Long` addition, agrees with the exact one whenever the sum does not overflow |
| MeasureSerialize.MedianAsWritten | src/main/kotlin/evatest/MeasureSerialize.kt:9-14 | the source's median is defined exactly for nonempty lists; an empty list throws |
| MeasureSerialize.Median | src/main/kotlin/evatest/MeasureSerialize.kt:9-14 | the median is defined exactly for nonempty lists and lies between two samples |
| MeasureSerialize.MedianAsWrittenOverflows | src/main/kotlin/evatest/MeasureSerialize.kt:11 | for [Long.MAX_VALUE, Long.MAX_VALUE], the source gives -1 while the median is Long.MAX_VALUE |
| MeasureSerialize.MedianAsWrittenAgrees | src/main/kotlin/evatest/MeasureSerialize.kt:10-11 | when the two middle samples sum within `Long`, the source's median is the median |
| MeasureSerialize.MedianSplits | src/main/kotlin/evatest/MeasureSerialize.kt:9-14 | the lower half of the sorted samples is at most the median, and the upper half at least it |
| MeasureSerialize.MedianOrderFree | src/main/kotlin/evatest/MeasureSerialize.kt:9 | the median depends only on which samples there are, not on their order |
| Bytes.WrapLong | src/main/kotlin/evatest/MeasureSerialize.kt:11 | `Long` addition wraps: the result equals the sum modulo 2^64, and is the sum when that is in range |
| Bytes.HalfTowardZero | src/main/kotlin/evatest/MeasureSerialize.kt:11 | Kotlin's `/ 2` truncates toward zero |

## Left out

- Aliasing and in-place mutation of token objects. Tokens are values, so the model cannot show
  effects that flow through shared references. One such effect is the mutation in
  `createAndSend` after `send`; the model keeps the source's order (send, then strip). The
  loop in `sendToPeer` also mutates tokens that the verified pool still holds, but it removes
  them right after, so nothing observable is lost.
- `Token.hashCode` hashes the id array by identity, so a `LinkedHashSet<Token>` never merges two
  freshly deserialized tokens, even when their ids are equal. The pools are therefore sequences
  that `add` appends to. For the same reason, a set's `removeAll` drops exactly the token objects
  it is given, and `send` always takes those from the front of the set. The model writes this
  as removing the first |taken| tokens (`RemoveSent`); hash collisions between different id
  arrays are not modelled. A list's `removeAll` goes through `equals` instead, and removes by id.
- EuroCommunity.Send: when `send` is given a list with duplicate ids (`sendToPeer`, after the
  client received the same token twice), the records inside a datagram are not described. The
  list's `removeAll` then drops tokens that were never sent, and a later datagram carries stale
  records from the reused packet. Datagram count, lengths and headers are still proved. For
  sets (`sendToBank`) the contents are proved whatever the ids.
- The newer token codec (`Token.deserialize(ByteArray)` over recipient chains), `Token.create(value, key)`
  and `verifyRecipients` are not part of this model. The verifier receives its batch already
  decoded, and `verifyRecipients` is a parameter. `data!!` on a null EVA payload is not modelled.
- `keyFromPublicBin` and `keyToBin` are not part of this model, and neither are the exceptions
  `keyFromPublicBin` raises on malformed keys. `Crypto.Scheme.verify` is a total function of the
  key bytes. A `Peer` carries its key already serialized.
- IPv8 overlay wiring: peer discovery (`getPeers()` is a parameter), message handlers, the EVA
  transfer callbacks, the community prefix contents, and the addresses (`toSocketAddress`).
- Timing, logging, throughput figures and `TOKEN_AMOUNT_STOP_MEASURING` in the benchmark. These
  print only and do not affect the token set.
- Threads: the benchmark's receiver thread and the communities' coroutines. Each handler is one
  sequential step.
- Native byte order: the benchmark buffers use the platform's order; the model fixes
  little-endian. The round trip holds for either order.
- `Random.nextBytes`/`Random.nextLong`: the nonce, the minted ids and anchors, and the generated
  token values are parameters.
- The command-line loop (`executeLine`, `main`), apart from the initial set, which is the
  `Benchmark` constructor.
- `findDoubleSpend` has an empty body. A token it would examine is only skipped
  (`DoubleSpendSuspect`).
- `info()` in both communities logs the peer count only.

## Findings

| source | as written | input that shows it | evidently intended | confidence | as-written member | corrected member |
|---|---|---|---|---|---|---|
| src/main/kotlin/evatest/MeasureSerialize.kt:11 | `(it[it.size / 2] + it[(it.size - 1) / 2]) / 2` adds two `Long`s, and the sum wraps on overflow | `[Long.MAX_VALUE, Long.MAX_VALUE]` gives -1 | the mean of the two middle samples, which always lies between them | high for the arithmetic, not executed | MeasureSerialize.MedianAsWrittenOverflows | MeasureSerialize.Median |
