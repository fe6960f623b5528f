# Verification of the peer-to-peer RFC exchange

A model in Dafny 4.11 of a system in which peers keep RFCs as text files, announce them to a central index and
download them from one another, and proofs of what that system promises. `dafny verify dfyconfig.toml` checks it.

## How the model is built

**The central index.** `CentralIndex` is a class over the two lists, with the loops of the program; its methods are
proved against `IndexSpec.Atomic`, one operation on a set of clients and a set of holders. `IndexThreads` splits the
same operations into single `lock()`, critical-section and `unlock()` steps of any number of handler threads:
consistency whatever is locked, absence of deadlock, termination. `Linearizability` shows that each interleaving
refines the atomic operations, so the layers above use `Atomic`; `LockedSystem` makes that good for the whole system.
`SharedIdentity` drops the hypothesis of distinct identities: it says exactly when a holder then loses its client, and
gives the failing run for every peer and number.

**Messages.** `ListResponse`, `LookupResponse` and `GetResponse` are classes whose methods move `pos` over an array.
Their specification is a pair of an encoder and a parser on byte sequences (`Records`, `ResponseLists`), with round trips,
prefix-freedom and the exact grammar. Machine integers are explicit: two's complement in network byte order, `unsigned`
sizes that wrap, narrowing to `short`.

**Transport.** `Transport` has the retry loops over a kernel that moves as few bytes per call as it likes.
`SecureChannel` is the record layer over an ideal authenticated cipher (the interface of section 2.8 of RFC 8439), with
the alignment of sends and receives that it needs, and `Handshake` the key exchange, as two parties over FIFO channels
and as a program for one end.

**Files.** `FileNames` and `RfcManager` are the directory: decimal names, and a map from number to content.

**The whole system.** `Protocol` gives the four parties (client and handler of an index session; the two ends of a
download) as state machines whose steps are single socket calls, calls of the index, file accesses and decisions. `System` runs any
number of peers, sessions and downloads of them, interleaved arbitrarily. `SystemInvariant` proves one invariant of
all runs; `SystemTheorems`, `Progress`, `ResponseSizes` and `Completion` draw the consequences: soundness and exactness of
the index, no failing ADD or GET, provenance of contents, choice of the least holder, alignment, progress, and an end to
every schedule.

**Below the events.** `ByteSystem` is the same system over streams of bytes, plain or encrypted, where a receive takes
bytes as soon as enough are there; `EncryptedSystem` proves by simulation in both directions that its runs are those of
`System`. `LockedSystem` is the same system with the mutexes of the index, and refines `System` through `Linearizability`.

**The programs.** `Server`, `PeerServer` and `PeerProgram` hold `client_handler`, the peer's handler and the peer's
client as methods that call the classes above. Each is proved to do exactly what its state machine does until that can
do no more, the first two while other handlers change the shared index and the peer's own client stores files.
`Refinement` shows that the moves of those machines are exactly the events of `System`; `Interleaving` and `ClientRuns` that in
every run of `System` a handler, and a client with its downloads, does what its machine may do among others. `WireFormat`
spells out, in bytes, what each machine sends and how it takes what it gets.

**Hypotheses of a run** (`System.Init`): peers have distinct identities with non-empty hosts without NUL bytes and positive
ports; files have numbers 1 to 32767 and non-empty contents without bytes 0x00 and 0xFF, below two gigabytes; nobody else changes
the directories. A peer connects only to a peer that still runs. Contents and names outside these bounds are met in the modules that
handle them, which state exactly when the code keeps its promise (`RoundTripIff`, `ContentSurvivesIff`, `PrintParsedNameIff`, `ShortCarriesNumberIff`).

**Where the code departs from its documentation.** The repository's README asks for files named `rfc#.txt`; the pattern in
`src/rfc_manager.cpp:40` also reads `rfc07-txt`, a name that `add_rfc` would never write (`FileNames.OtherNamesAreRead`). The comment on
`get_content` in `include/rfc_manager.hpp` promises an empty string for a missing file; the code throws. `remove_client` returns
a flag that is always false. The model follows the code.

## Model

| member | source | states |
|---|---|---|
| IndexSpec.OrdersAreTotal | src/central_index.cpp:19-25 | comparing holders by number, host bytes and port is a strict total order, and so is its restriction to peers |
| IndexSpec.HostOrderIs | src/central_index.cpp:22-23 | one host is less than another exactly when it is a proper prefix of it or has the smaller byte where they first differ |
| IndexSpec.HolderOrderIs | src/central_index.cpp:19-25 | holders go by number, then host, then port; peers by host, then port |
| IndexSpec.AtomicIsFunction | src/central_index.cpp:110-136 | the reply and the new sets of any operation depend on the sets before it alone, so histories reaching the same sets answer alike |
| IndexSpec.FindHeadIsLeast | src/central_index.cpp:110-123 | the list of holders is empty exactly when nobody has the RFC, and else begins with the least holder |
| Sorting.EnumerationUnique | src/central_index.cpp:126-136 | a set has at most one strictly ascending list |
| Sorting.PushBackThenSort | src/central_index.cpp:99-101 | any sorting of a strictly sorted list with a new last element is its ordered insertion |
| Sorting.Sort | src/central_index.cpp:101 | sorting yields a sorted permutation |
| IndexLists.HoldersWithoutMembers | src/central_index.cpp:49-56 | the erase loop removes the entries of one peer and no others |
| IndexLists.HoldersWithoutKeepsStrict | src/central_index.cpp:49-56 | erasing keeps the list strictly sorted |
| IndexLists.ClientsWithoutMembers | src/central_index.cpp:59-64 | erasing the first match removes the client from a list without repeats |
| IndexLists.PeersHoldingEnumerates | src/central_index.cpp:112-119 | the copy loop yields the holders of one RFC in ascending order, once each |
| IndexLists.HoldersWithMembers | src/central_index.cpp:99-101 | after an insertion the list is strictly sorted and has one more element |
| CentralIndex.CentralIndex.AddClient | src/central_index.cpp:28-44 | the call is the atomic operation; a client already listed leaves everything as it is |
| CentralIndex.CentralIndex.RemoveClient | src/central_index.cpp:47-69 | the call is the atomic operation: all entries of the peer go, from both lists |
| CentralIndex.CentralIndex.EraseHolders | src/central_index.cpp:49-56 | erasing while iterating leaves the holders of other peers, in order |
| CentralIndex.CentralIndex.EraseClient | src/central_index.cpp:58-65 | erasing stops after the first match |
| CentralIndex.CentralIndex.AddRfc | src/central_index.cpp:72-107 | the call is the atomic operation: true exactly for a new entry of a listed client, and the lists stay sorted and free of repeats |
| CentralIndex.CentralIndex.FindRfcs | src/central_index.cpp:110-123 | the result has exactly the peers listed for the number, in the order of hosts and ports |
| CentralIndex.CentralIndex.AllRfcs | src/central_index.cpp:126-136 | the result is the ascending enumeration of all entries |
| IndexThreads.StepKeepsInv | src/central_index.cpp:28-136 | every lock, section and unlock step of any thread keeps the invariant of the shared index |
| IndexThreads.IndexAlwaysConsistent | src/central_index.cpp:28-107 | in every state of every interleaving, even with mutexes held: no repeats, strict order, every holder a client, mutual exclusion |
| IndexThreads.ListsAreGuarded | src/central_index.cpp:28-136 | a thread neither reads nor writes a list whose mutex it does not hold |
| IndexThreads.LockOrder | src/central_index.cpp:72-105 | `rfcs_mut` is never taken under `clients_mut`, and only `add_rfc` ever holds both |
| IndexThreads.SomeThreadCanStep | src/central_index.cpp:72-105 | while any call is unfinished, some thread can step: the order of the locks admits no deadlock |
| IndexThreads.StepDecreasesWork | src/central_index.cpp:28-136 | every step that starts no new call lowers a bound on the steps left |
| IndexThreads.PendingCallsFinish | src/central_index.cpp:30-105 | from every reachable state the pending calls can run to their ends, leaving both mutexes free |
| Linearizability.StepRefinesSpec | src/central_index.cpp:28-136 | a forward simulation: each step of the locked index is a step of the atomic one with the same calls and replies, `remove_client` acting in its first section |
| Linearizability.EveryRunIsLinearizable | src/central_index.cpp:28-136 | every run has a serial order of effects that explains the index and every reply |
| SharedIdentity.StepKeepsBackedIff | src/central_index.cpp:47-107 | whatever identities sessions have, a step leaves a holder without its client if and only if it is the second section of `remove_client` while a holder of its peer is listed |
| SharedIdentity.AlwaysBackedIff | src/central_index.cpp:28-107 | in a run with any identities every holder is always a client if and only if no such section is run |
| SharedIdentity.DistinctSessionsNeverOrphan | src/central_index.cpp:47-69 | with distinct identities it never is |
| SharedIdentity.SharedIdentityLeavesDanglingHolder | src/central_index.cpp:47-69 | for every peer and every number there is a run of two sessions of that peer that ends at rest with a holder that is no client |
| Bytes.DecodeEncodeInt | src/list_rfc_res.cpp:74-75 | `ntohl` undoes `htonl` for every `int` |
| Bytes.EncodeDecodeInt | src/list_rfc_res.cpp:120-121 | four bytes decode to an `int` that encodes to them |
| Bytes.IntIsBigEndian | src/list_rfc_res.cpp:120-121 | the four bytes of an `int` are its two's complement, most significant byte first |
| Bytes.IntIsReadBigEndian | src/list_rfc_res.cpp:74-75 | and so they are read |
| Bytes.ShortIsBigEndian | src/client.cpp:79-81 | the same for the two bytes of a `short` |
| Bytes.NarrowKeepsLowBits | src/client.cpp:79 | an `int` passed as a `short` keeps its last sixteen bits |
| Bytes.ToInt32KeepsLowBits | src/server.cpp:48 | a size passed as an `int` keeps its last 32 bits |
| Bytes.ShortCarriesNumberIff | src/client.cpp:79-81 | a positive RFC number survives the narrowing in GET exactly when it is below 32768 |
| Bytes.TakeUntil | src/list_rfc_res.cpp:95-104 | what a C string keeps of bytes: the longest prefix without the stop byte |
| Records.ParseEncodePeer | src/lookup_rfc_res.cpp:88-102 | a written host and port read back, the host cut at its first NUL, reading no further |
| Records.EncodeParsePeer | src/lookup_rfc_res.cpp:130-143 | a record in the strict grammar is what its own content encodes to |
| Records.ParseEncodeHolder | src/list_rfc_res.cpp:86-104 | the same for number, host and port |
| Records.EncodeParseHolder | src/list_rfc_res.cpp:133-151 | the same for number, host and port |
| Records.PutPeer | src/lookup_rfc_res.cpp:130-143 | writing at `pos` puts exactly the record there, moves past it and leaves the rest |
| Records.ReadPeer | src/lookup_rfc_res.cpp:88-102 | reading at `pos` yields the parsed record and the position of what follows |
| Records.PutHolder | src/list_rfc_res.cpp:133-151 | writing at `pos` puts exactly the record there, moves past it and leaves the rest |
| Records.ReadHolder | src/list_rfc_res.cpp:86-104 | reading at `pos` yields the parsed record and the position of what follows |
| ResponseLists.OtherCodesIgnoreTheRest | src/lookup_rfc_res.cpp:76-78 | a response other than 200 decodes by its first four bytes, whatever the unwritten rest holds |
| ListResponse.ParseOfEncoding | src/list_rfc_res.cpp:60-109 | any encoded list followed by anything decodes to the list with hosts cut at NUL, reading no further |
| ListResponse.RoundTripIff | src/list_rfc_res.cpp:60-155 | decoding restores the message exactly when no host contains a NUL |
| ListResponse.PrefixFree | src/list_rfc_res.cpp:112-155 | encodings of NUL-free lists are injective and none is a prefix of another |
| ListResponse.GrammarIsExact | src/list_rfc_res.cpp:60-155 | bytes are in the grammar exactly when they encode a clean list, and then encode what they decode to |
| ListResponse.ListRfcResponse.Valid | src/list_rfc_res.cpp:35-49 | true exactly for the known codes and, for 200, hosts and ports that are set |
| ListResponse.ListRfcResponse.MessageSize | src/list_rfc_res.cpp:52-57 | the wrapped sum is the length of the wire form modulo 2^32 |
| ListResponse.ListRfcResponse.ToBytes | src/list_rfc_res.cpp:112-155 | no buffer exactly for invalid messages; else, wherever the size does not wrap, a buffer of the exact size, filled completely for 200 and only in the code for others |
| ListResponse.ListRfcResponse.WriteList | src/list_rfc_res.cpp:125-152 | count and records fill the buffer to its last byte, in bounds |
| ListResponse.ListRfcResponse.FromBytes | src/list_rfc_res.cpp:60-109 | decoding appends the parsed holders to those the object has |
| ListResponse.ReadList | src/list_rfc_res.cpp:84-107 | the loop yields the parsed records |
| LookupResponse.ParseOfEncoding | src/lookup_rfc_res.cpp:63-106 | any encoded list followed by anything decodes to the list with hosts cut at NUL, reading no further |
| LookupResponse.RoundTripIff | src/lookup_rfc_res.cpp:63-147 | decoding restores the message exactly when no host contains a NUL |
| LookupResponse.PrefixFree | src/lookup_rfc_res.cpp:109-147 | encodings of NUL-free lists are injective and none is a prefix of another |
| LookupResponse.GrammarIsExact | src/lookup_rfc_res.cpp:63-147 | bytes are in the grammar exactly when they encode a clean list, and then encode what they decode to |
| LookupResponse.LookupRfcResponse.Valid | src/lookup_rfc_res.cpp:37-51 | true exactly for the known codes and, for 200, hosts and ports that are set |
| LookupResponse.LookupRfcResponse.MessageSize | src/lookup_rfc_res.cpp:54-60 | the wrapped sum is the length of the wire form modulo 2^32 |
| LookupResponse.LookupRfcResponse.ToBytes | src/lookup_rfc_res.cpp:109-147 | no buffer exactly for invalid messages; else, wherever the size does not wrap, a buffer of the exact size, filled completely for 200 and only in the code for others |
| LookupResponse.LookupRfcResponse.WriteList | src/lookup_rfc_res.cpp:122-144 | count and records fill the buffer to its last byte, in bounds |
| LookupResponse.LookupRfcResponse.FromBytes | src/lookup_rfc_res.cpp:63-106 | decoding replaces whatever the object held |
| LookupResponse.ReadList | src/lookup_rfc_res.cpp:86-104 | the loop yields the parsed records |
| GetResponse.ParseOfEncoding | src/get_rfc_res.cpp:56-78 | an encoded content followed by anything decodes to the content cut at NUL |
| GetResponse.RoundTripIff | src/get_rfc_res.cpp:56-104 | the content comes back exactly when it has no NUL |
| GetResponse.OtherCodesIgnoreTheRest | src/get_rfc_res.cpp:60-62 | a response other than 200 decodes by its first four bytes |
| GetResponse.GrammarIsExact | src/get_rfc_res.cpp:56-104 | the grammar is exactly the set of encodings of NUL-free contents |
| GetResponse.GetRfcResponse.Valid | src/get_rfc_res.cpp:35-48 | true exactly for the known codes and, for 200, a non-empty content |
| GetResponse.GetRfcResponse.ToBytes | src/get_rfc_res.cpp:81-104 | no buffer exactly for invalid messages (an empty file, for one); else, wherever the size does not wrap, the wire form |
| GetResponse.GetRfcResponse.FromBytes | src/get_rfc_res.cpp:56-78 | 200 sets the content, any other code leaves it |
| Transport.Socket.Send | src/client_socket.cpp:61-76 | true exactly when every byte was accepted, in order; false exactly after ten calls that moved nothing, whatever the kernel does |
| Transport.Socket.RecvBounded | src/server_socket.cpp:37-55 | true exactly when `len` bytes arrived, in order, in place; false exactly after ten empty calls |
| Transport.Socket.RecvUnbounded | src/client_socket.cpp:79-94 | after any number of kernel calls: still waiting exactly when too few bytes came or were offered, else returned with all of them, and false exactly when ten calls were empty on the way |
| Transport.Exchange | src/server_socket.cpp:16-55 | any chunking by the sender and any by the receiver reassemble the same messages, unless a kernel stalls ten times |
| SecureChannel.EncryptionIsTransparent | src/encrypted_client_socket.cpp:30-54 | an aligned session delivers over encrypted sockets exactly what it delivers over plain ones, and the wire holds the records of the undelivered sends |
| SecureChannel.AlignedIff | src/encrypted_server_socket.cpp:45-69 | a session succeeds over encrypted sockets under every ideal cipher if and only if it is aligned |
| SecureChannel.MisalignedSessionsDiffer | src/encrypted_server_socket.cpp:58-69 | plain sockets do not need alignment: a session that works over them and fails under some ideal cipher |
| SecureChannel.EncryptedSocket.Send | src/encrypted_server_socket.cpp:45-55 | the result speaks of the MAC alone: the whole record went out if and only if it is true and the ciphertext did not stall ten times |
| SecureChannel.EncryptedSocket.RecvBounded | src/encrypted_server_socket.cpp:58-69 | true exactly when a whole record arrived and opens, and then the plaintext is in the buffer and the record consumed |
| SecureChannel.EncryptedSocket.RecvUnbounded | src/encrypted_client_socket.cpp:43-54 | true only for a whole record that opens, with its plaintext in the buffer; false only for one that does not or after ten empty calls; and it returns once enough was offered |
| Handshake.HandshakeIsSafe | src/crypto_common.cpp:19-98 | in every state of every interleaving nobody has failed, lengths match, keys and IVs are equal as soon as both ends have them, and nobody is stuck |
| Handshake.HandshakeAlwaysAgrees | src/crypto_common.cpp:19-98 | every interleaving ends after exactly eighteen socket calls with both ends holding one key and one IV |
| Handshake.FramesReceived | src/crypto_common.cpp:33-86 | what each end receives, frame by frame: lengths, the public key of the other, the IV for the client, and a confirmation that opens to CONFIRM under the shared key |
| Handshake.AcceptsConfirmationIff | src/crypto_common.cpp:79-94 | a confirmation is accepted exactly when it opens to CONFIRM, up to a first NUL; any other fails the handshake |
| Handshake.RefusesKey | src/crypto_common.cpp:46-50 | a key that cannot be agreed on fails it |
| Handshake.SomeSetupIsIdeal | src/crypto_common.cpp:24-55 | the assumptions on the primitives can be met |
| Handshake.Run | src/crypto_common.cpp:19-98 | the procedure of one end sends, receives and concludes as its state machine does, exceptions included |
| Handshake.BothEndsFinish | src/crypto_common.cpp:60-96 | each end, fed what the other sends, sends what the other expects and finishes with the shared key |
| FileNames.ParsePrintedName | src/rfc_manager.cpp:39-48 | every number is read back from the name it is stored under |
| FileNames.PrintParsedNameIff | src/rfc_manager.cpp:39-48 | printing the number of a name gives the name back exactly when it was canonical |
| FileNames.NameIs | src/rfc_manager.cpp:81-84 | the file of a number is "rfc", its digits in base ten without superfluous zeros, ".txt" |
| FileNames.ReadsNameIff | src/rfc_manager.cpp:39-48 | a name is read as a number exactly when that is the value, in base ten, of the digits between "rfc" and the last four characters, "txt" after any one but a line end |
| FileNames.OtherNamesAreRead | src/rfc_manager.cpp:40 | a name that is read as a number but is not the name of that number |
| RfcManager.ContentSurvivesIff | src/rfc_manager.cpp:81-104 | a content survives storing and reading exactly when it has neither byte 0x00 nor 0xFF |
| RfcManager.StoreAfterWrite | src/rfc_manager.cpp:81-89 | writing a file of a canonical directory updates the map from number to bytes at that number alone |
| RfcManager.RfcManager.GetRfcs | src/rfc_manager.cpp:58-78 | an exception exactly for a name that cannot be read; else the sorted numbers, without repeats on canonical directories |
| RfcManager.RfcManager.AddRfc | src/rfc_manager.cpp:81-90 | the map is updated at the number with what a C string keeps of the content |
| RfcManager.RfcManager.GetContent | src/rfc_manager.cpp:93-104 | the file up to its first byte 0xFF, or the exception exactly when there is none |
| RfcManager.ReadAll | src/rfc_manager.cpp:99-103 | the character loop stops at the first byte 0xFF |
| RfcManager.LastWriteWins | src/rfc_manager.cpp:81-104 | after any run of writes each number yields the last content written for it |
| Listener.SelectMeans | src/encrypted_server_socket_listener.cpp:23-33 | what is selected are the keepers whose flag is as asked, all of them, in order |
| Listener.EncryptedServerSocketListener.CleanupPass | src/encrypted_server_socket_listener.cpp:23-33 | after a pass only keepers with their flag down are left and only ones with their flag up were reaped; both keep their order and together they make up what there was |
| Listener.SelectPartitions | src/encrypted_server_socket_listener.cpp:23-33 | reaped and kept make up what there was |
| Listener.NothingLostNothingTwice | src/encrypted_server_socket_listener.cpp:19-39 | over any run every keeper accepted is running or reaped, as often as it was accepted |
| Listener.NoKeeperReapedTwice | src/encrypted_server_socket_listener.cpp:24-29 | with distinct keepers none is joined twice and none runs after it was freed |
| Session.ClientSendKeeps | src/client.cpp:336-360 | a send of the client keeps the invariant of the session |
| Session.VersionReceiveKeeps | src/client.cpp:340-357 | so does the version exchange, after which the whole directory is to be announced |
| Session.ReplyReceiveKeeps | src/client.cpp:139-219 | so does every reply the client receives; no reply has an unexpected length |
| Session.HandlerReceiveKeeps | src/server.cpp:87-161 | so does every receive of the handler |
| Session.HandlerDecisionKeeps | src/server.cpp:18-84 | so does every answer of the handler, an ADD being answered 200 |
| Session.ClientDecisionKeeps | src/client.cpp:361-392 | so does every new request |
| Session.SessionAligned | src/server.cpp:87-161 | each receive of either side asks for the length of the oldest undelivered send |
| Session.SessionProgress | src/server.cpp:87-161 | the two sides are never both stuck before DISCONNECT is handled |
| Download.FetchReceiveKeeps | src/client.cpp:84-100 | a download receives a 200 response with an authentic content and goes on to disconnect |
| Download.ServeReceiveKeeps | src/client.cpp:262-288 | the serving peer takes the introduction and the request as they were sent |
| Download.ServeReadKeeps | src/client.cpp:292-312 | its answer, for a file that is there, delivers that file |
| Download.LinkAligned | src/client.cpp:58-111 | the receives of both ends ask for the lengths that were sent |
| Download.LinkProgress | src/client.cpp:264-323 | until the serving side has closed one of the two ends can go on |
| SystemInvariant.AddIsAccepted | src/server.cpp:18-38 | an ADD finds its peer registered and its number new, and is accepted |
| SystemInvariant.LookupBodyDecodes | src/server.cpp:59-84 | the bytes of a LOOKUP answer decode to the holders found |
| SystemInvariant.ListBodyDecodes | src/server.cpp:41-56 | the bytes of a LIST answer decode to the entries of the index |
| SystemInvariant.ServeReadFinds | src/client.cpp:292-300 | the file a peer is asked for is in its directory, and authentic |
| SystemInvariant.StepKeepsInv | src/client.cpp:32-219 | every event of any party keeps the invariant of the whole system |
| SystemInvariant.RunKeepsInv | src/client.cpp:32-392 | it holds in every state of every run |
| SystemTheorems.AnyPeersMayStart | src/client.cpp:254-258 | what follows holds of any distinct peers with nameable hosts, positive ports and text files numbered 1 to 32767 |
| SystemTheorems.IndexIsSound | src/server.cpp:18-38 | every entry of the index, at any time, names a connected peer whose directory has the file |
| SystemTheorems.IndexIsExact | src/client.cpp:147-193 | from the first prompt on, outside downloads, the entries of a peer are exactly its files |
| SystemTheorems.NothingIsLeftBehind | src/server.cpp:156-161 | a peer whose session has ended is in neither list |
| SystemTheorems.AddNeverFails | src/client.cpp:42-50 | every ADD of every run is answered 200 and enters the index |
| SystemTheorems.FilesAreAuthentic | src/client.cpp:76-100 | every stored content is, byte for byte, what some peer had under that number at the start |
| SystemTheorems.FilesAreStable | src/client.cpp:147-151 | no file is ever lost or replaced |
| SystemTheorems.LookedUpPeerHasFile | src/client.cpp:174-175 | the peer taken from a LOOKUP exists, is another one and still has the file, which the asking peer has not |
| SystemTheorems.GetIsAnswered200 | src/client.cpp:285-315 | every GET is answered 200 with an authentic content, never 404 |
| SystemTheorems.DownloadsSucceed | src/client.cpp:84-111 | no download misses or decodes to nonsense, and the file appears exactly when the body has arrived |
| SystemTheorems.LookupPicksLeastHolder | src/client.cpp:153-175 | after a LOOKUP the client turns to the peer that was the least holder, never itself, or learns that there was none |
| SystemTheorems.AnswerArrives | src/server.cpp:73-79 | whatever else happens, a LOOKUP answer reaches its client unchanged |
| SystemTheorems.ListTellsIndex | src/client.cpp:203-217 | the answer to LIST decodes to every entry once, in ascending order |
| SystemTheorems.MessagesLineUp | src/server.cpp:87-161 | in no state of any run does any receive ask for another length than was sent |
| Progress.ListBodyExistsIff | src/server.cpp:43-52 | LIST can be answered if and only if the list is below two gigabytes |
| Progress.LookupBodyExistsIff | src/server.cpp:67-79 | so can LOOKUP |
| Progress.SessionGoesOn | src/server.cpp:120-154 | in every state each session can make a move of its own, or rests with every word heard, or is owed an answer of two gigabytes |
| Progress.LinkGoesOn | src/client.cpp:278-321 | each download can make a move of its own, or both its ends have finished |
| Progress.NeverStuck | src/client.cpp:332-392 | no run reaches a state in which the system is stuck with anything under way, unless an answer of two gigabytes is owed |
| ResponseSizes.NeverStuckIfFits | src/server.cpp:41-84 | nor is it ever stuck when the files of the start, held by every peer, fit one list |
| Completion.SessionEventWorks | src/client.cpp:32-55 | every event of a session leaves it less to do |
| Completion.SessionsFinish | src/client.cpp:139-219 | until its client is given a command, or restarts, a session takes part in no more events than it had work, whatever the others do |
| Completion.CommandIsShort | src/client.cpp:139-219 | a command is at most 120 events of work, from the request to the prompt, with the download and the notification of a GET |
| Completion.LinkEventWorks | src/client.cpp:58-111 | every event of a download leaves it less to do and touches no other |
| Completion.EventLowersTotal | src/client.cpp:32-392 | every event but a command or a restart lowers the work of the whole system |
| Completion.WorkRunsOut | src/client.cpp:32-392 | so no schedule goes on for ever without commands, from any reachable state |
| Completion.StopsAtRest | src/client.cpp:332-392 | where every schedule must stop, the system is at rest or an answer of two gigabytes is owed |
| Completion.CanStop | src/client.cpp:332-392 | from every reachable state the system can come to such a stop within the work it has left |
| EncryptedSystem.HearsOldestIff | src/encrypted_server_socket.cpp:58-69 | on the byte level a receive of any party of any run can succeed if and only if a send is waiting, and it yields the oldest one, to the byte |
| EncryptedSystem.StepProjects | src/encrypted_client_socket.cpp:30-54 | a byte-level step, which takes bytes off a stream wherever sends began and ended, is the step of the system that receives that message |
| ByteSystem.EventMirrors | src/client.cpp:32-392 | no event depends on what is in the channels but for the message it receives |
| EncryptedSystem.ByteRunsAreRuns | src/encrypted_client_socket.cpp:30-54 | every run on the byte level, over plain or encrypted lines, is a run of the system: each stream holds the bytes, or ciphertexts and MACs, of the sends in flight, and each receive delivers the oldest |
| EncryptedSystem.RunsAreByteRuns | src/encrypted_client_socket.cpp:30-54 | and every run of the system is one on the byte level, over any lines |
| EncryptedSystem.EncryptionIsInvisible | src/encrypted_server_socket.cpp:45-69 | what the parties do over encrypted lines they can do over plain ones, through the very same states, and conversely |
| Server.Handler.AddRfc | src/server.cpp:18-38 | one message is answered by one of four bytes, 200 exactly when the peer is registered and the number new, else 400, whatever others do meanwhile |
| Server.Handler.ListRfcs | src/server.cpp:41-56 | the same for LIST; it fails exactly where there is nothing to send |
| Server.Handler.LookupRfc | src/server.cpp:59-84 | the same for LOOKUP |
| Server.Handler.Introduce | src/server.cpp:103-115 | the identity is what the client sends after its version |
| Server.Handler.ServeRequests | src/server.cpp:120-154 | the loop does what the specification does, up to DISCONNECT, whatever other handlers do to the index meanwhile |
| Server.Handler.Run | src/server.cpp:87-163 | among other handlers on the shared index, the handler does what the specification does until that can do no more; if it finishes, its peer has no entries and peers the others left alone have theirs |
| Server.OwnMoveTouchesOwn | src/server.cpp:26-29 | a handler touches the entries of its own peer alone |
| Server.RunTellsStory | src/server.cpp:87-161 | at every point of a session among others, the entries of its peer are what was there and what its own accepted requests made them, and those of peers left alone are untouched |
| Server.SessionLeavesNoTrace | src/server.cpp:117-157 | a finished session has neither client nor holder entries left, however other handlers interleave |
| Server.SessionAloneChangesNothing | src/server.cpp:117-157 | and when nobody else touched the index, the session of a new peer leaves it as it was |
| Server.NoListBody | src/server.cpp:45-52 | where the program has no LIST answer to send, no answer is allowed |
| Server.NoLookupBody | src/server.cpp:73-79 | the same for LOOKUP |
| Server.ListMessage | src/server.cpp:45-49 | code, body and size of a LIST response, or none exactly for entries that cannot be encoded |
| Server.LookupMessage | src/server.cpp:69-77 | the same for LOOKUP |
| PeerServer.DirectoryOnlyGrows | src/client.cpp:292-312 | throughout a connection the directory holds what it held before |
| PeerServer.Handler.Run | src/client.cpp:262-325 | while its own client may be storing files, the handler of peer connections does what its specification does until that can do no more |
| PeerServer.Handler.Respond | src/client.cpp:292-312 | a GET is answered with what the directory holds |
| PeerServer.GetMessage | src/client.cpp:293-308 | code, body and size of a GET response, or none exactly for empty or oversized files |
| PeerServer.ResponseTellsFile | src/client.cpp:295-311 | any response decodes to the file as read, or to 404 exactly when there is none |
| WireFormat.ClientOpens | src/client.cpp:336-357 | version 1 goes first, then host length, host and port |
| WireFormat.ClientChecksVersion | src/client.cpp:340-357 | any version but 1 ends the session before the client says who it is |
| WireFormat.ClientAnnounces | src/client.cpp:34-53 | each number goes out under ADD until one is not answered 200 |
| WireFormat.ClientCommands | src/client.cpp:139-241 | the bytes of LOOKUP, ADD, LIST and DISCONNECT, and no LOOKUP for a number that is not positive or is stored |
| WireFormat.ClientIgnoresAnswer | src/client.cpp:186-193 | after a notification comes the prompt, whatever the answer |
| WireFormat.ClientGivesUp | src/client.cpp:169-172 | an answer that begins with 404 ends a GET |
| WireFormat.ClientTakesFirst | src/client.cpp:174-175 | one that begins with 200 leads to the first peer in it |
| WireFormat.HandlerChecksVersion | src/server.cpp:90-101 | any version but 1 ends the session |
| WireFormat.HandlerTakesRequest | src/server.cpp:122-154 | 1 to 4 are ADD, LIST, LOOKUP and DISCONNECT; any other number is ignored |
| WireFormat.HandlerTakesFields | src/server.cpp:103-115 | which frames are the host, the port and a number |
| WireFormat.AddAnswer | src/server.cpp:26-33 | ADD is answered 200 and enters the index exactly when the peer is registered and the number new, else 400 |
| WireFormat.ListAnswer | src/server.cpp:43-52 | LIST is answered with a size and a body of that size, of code 404 exactly for an empty index |
| WireFormat.LookupAnswer | src/server.cpp:67-79 | LOOKUP likewise, of code 404 exactly when nobody has the number |
| WireFormat.JoinAndLeave | src/server.cpp:117-157 | joining and leaving send nothing, and change the entries of the peer alone |
| WireFormat.FetchOpens | src/client.cpp:66-82 | a download opens with the introduction, 1 and the number in two bytes |
| WireFormat.FetchMisses | src/client.cpp:93-97 | a body that begins with 404 stores and sends nothing |
| WireFormat.FetchStores | src/client.cpp:99-109 | a 200 body has its content stored and is followed by a disconnect |
| WireFormat.FetchStoresNothing | src/client.cpp:99-109 | a body of any other code is taken for an empty content |
| WireFormat.ServerTakesRequest | src/client.cpp:264-321 | 1 and 2 are GET and DISCONNECT; any other number is ignored |
| WireFormat.GetAnswer | src/client.cpp:293-311 | GET is answered 200, length and content when the file was read, else 404 in eight bytes |
| WireFormat.PeerLayout | src/lookup_rfc_res.cpp:128-143 | the record of a peer is host length, host, port |
| WireFormat.HolderLayout | src/list_rfc_res.cpp:131-151 | the record of a holder is number, host length, host, port |
| WireFormat.ListLayout | src/list_rfc_res.cpp:119-152 | a 200 response is its code, the number of records, and the records in the order of the list |
| WireFormat.NegativeCount | src/lookup_rfc_res.cpp:86 | a count below one is no record |
| PeerProgram.GetFromPeer | src/client.cpp:58-111 | what is sent, stored and returned is determined by what the other peer sends, also when the call hangs |
| PeerProgram.Client.AddAvailableRfcs | src/client.cpp:32-55 | the numbers of the directory go out in ascending order, each under ADD, up to the first that is not answered 200 |
| PeerProgram.Client.CheckIfRfcStored | src/client.cpp:130-136 | true exactly when the number is in the directory |
| PeerProgram.Client.GetRfc | src/client.cpp:139-195 | nothing is sent for a number that is not positive or is stored; else LOOKUP and the number, and after a download that stored its content, and only then, ADD and the number |
| PeerProgram.Client.ListRfcsRemote | src/client.cpp:198-219 | one LIST is sent and its answer decoded, but not printed |
| PeerProgram.Client.Join | src/client.cpp:336-360 | the prologue up to the first prompt; after a wrong version nothing but the own one has been sent |
| PeerProgram.Client.Run | src/client.cpp:332-392 | the whole client does what the specification does, command by command, until that can do no more |
| Refinement.HandlerMovesAreEvents | src/server.cpp:87-163 | the moves of the handler program's specification are exactly the handler's events in the whole system |
| Refinement.ServeMovesAreEvents | src/client.cpp:262-325 | the same for the serving end of a download |
| Refinement.ClientMovesAreEvents | src/client.cpp:332-392 | the same for the client, but for a download, which is many events |
| ClientRuns.HeardAlwaysFits | src/client.cpp:84-100 | in every run, what a download has received is a size and a body of it, and once it is done the file holds what that body carries |
| ClientRuns.EndIsDownload | src/client.cpp:174-183 | the many events of a download and its end are the one move of the client program's specification: the file stored and the ADD to come |
| ClientRuns.ClientFollowsProgram | src/client.cpp:332-392 | in every run of the system each client, its downloads included, does what the specification of its program may do with the commands, answers and responses of that run |
| ClientRuns.ClientRunsItsProgram | src/client.cpp:332-392 | and those responses are what the links of the run delivered |
| Interleaving.HandlerRunsAmongOthers | src/server.cpp:87-163 | in every run of the system each handler does what the specification of its program may do among others who leave its peer alone |
| Interleaving.ServerRunsAmongOthers | src/client.cpp:262-325 | and each serving end what its specification may do among growing files |
| LockedSystem.CallsAreAllowed | src/server.cpp:117-157 | the handlers of a run call the index as its locks need: no identity is held by two sessions |
| HandlerSwap.EventSwaps | src/server.cpp:87-161 | no event but a call depends on the index or on the handlers of other peers |
| LockedSystem.LockedStepRefines | src/central_index.cpp:28-136 | a lock, critical-section or unlock step inside a call is the whole call in the system of atomic calls, or nothing |
| LockedSystem.LockedRunsAreRuns | src/central_index.cpp:28-136 | every run of the whole system with the locks of the index has the parties' events, in order, of a run with atomic calls, and ends in what it ends in |
| LockedSystem.ListedHolderHasFile | src/central_index.cpp:72-107 | at any moment, whatever is locked, a holder in the list has the file in its directory |

## Left out

- Socket setup (`bind`, `accept`, `connect`, `inet_pton`), real threads, sleeping, printing, the command pattern and `listl`: I/O and user interface.
- Crypto++ itself: key agreement, key derivation and the cipher are functions of which only inversion, preserved lengths and commuting agreement are assumed; nothing is said about secrecy. The length passed to the key derivation is `sizeof` of a block object; the model has one derivation function for both ends.
- The receive buffer for a MAC is declared with `len` bytes in the encrypted sockets; the model has `MAC_LEN`.
- Kernel calls that return -1, which the retry loops add to a `size_t`, are not modelled.
- `ClientSocket::recv` has no bound of its own and may wait for ever; the model shows it after any number of kernel calls.
- Callers ignore the results of socket calls. In the system and the programs a receive that cannot succeed ends the party's run, where the code would go on with stale bytes.
- ListResponse.ListRfcResponse.ToBytes: assumes that a valid message is below four gigabytes; beyond, the size wraps and the code writes outside the buffer.
- LookupResponse.LookupRfcResponse.ToBytes: the same assumption.
- GetResponse.GetRfcResponse.ToBytes: the same assumption.
- ListResponse.ListRfcResponse.FromBytes: assumes bytes that do not lead the parser outside the buffer, where the code has undefined behaviour; likewise for the other two decoders.
- Progress.NeverStuck: counts as at rest a client that waits to connect to a peer which has quit in the meantime.
- The result of `add_client` is ignored by the handler; the whole system assumes distinct identities, and SharedIdentity shows what happens to the index otherwise.
- The keys of a connection are fixed when it opens, as the handshake leaves them; handshakes are a model of their own and not events of the whole system.
- A handler that refuses a protocol version never sets its flag and is never reaped; the system runs peers of one version.
- The list of threads is shared without a lock by the cleanup thread and the accept loop; a cleanup pass is atomic here. `close()` and the unencrypted listener, whose loop is the same, are not part of the model.
- Disk failures other than a missing file, and files seen half-written, are not modelled: storing a file is one event.
- Ports narrow to 16 bits when a socket is opened, which is part of socket setup.
- A process that exits with downloads from it under way may still finish them in the model; this only adds behaviours.
- `ListRFCMessage` and the fixed-width request and ADD response objects appear as four- and two-byte messages: their members would be easy.
