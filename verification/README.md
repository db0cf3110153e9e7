# A verified model of uvgTorrent-c

uvgTorrent-c is a BitTorrent client written in C. This project models the parts of it that work on memory rather than on sockets and
files, and proves what they guarantee over every input and every run:

- the **torrent data store**: chunks are claimed with deadlines, assembled into pieces in a hash map, validated and scattered over a
  list of files (`Geometry`, `Bitfield`, `Completion`, `Files`, `HashMap`, `ClaimList`, `Store*`, `TorrentData`);
- **SHA-1** as a streaming context over an in-place 16-word schedule (`Sha1`), with the test vectors of RFC 3174 (`Sha1Vectors`);
- **bencode**: the recursive parser and printer, dictionary lookup, a grammar to hold them to, and the `ut_metadata` exchange built on prefix parsing
  (`Bencode*`, `UtMetadata`);
- the **resumable message reader** and the **write queue** of a buffered socket (`FrameReader`, `WriteQueue`);
- the **request and reply path** between two peers, and whole downloads over it (`Requests`, `Replies`, `Downloads`), with the octets
  of the messages (`WireFormat`);
- the **thread pool** as interleaved steps, and its queue (`ThreadPool`, `Queue`);
- the **peer session**: `peer_run` as a transition function and what a connection is ever given to send (`PeerSession`,
  `PeerInvariant`, `PeerTalks`, `PeerDuties`, `PeerLogs`, `PeerWitnesses`, `PeerPieces`, `PeerHandshake`, `PeerRunner`).

Code that the source runs by changing things in place is a class or a method with loops here, proved against functions on values;
the statements about whole runs are lemmas about those functions. `dafny verify dfyconfig.toml` checks everything.

## What the code does that its documentation does not say

Each of these is proved of the model; where a promise fails, the condition under which it does hold is proved to be exact.

- The byte-wise test for a complete piece is exact if and only if a piece is a whole number of bitfield bytes
  (`Completion.ByteTestExactIff`), and only then are the files the torrent after every run (`StoreLimits.FilesExactIff`).
- Digests are compared with `strncmp`, which decides equality if and only if the expected digest has no zero byte before its last
  (`StoreTheorems.HashComparisonExactIff`).
- `torrent_data_read_data` never advances its offset, so it returns the range asked for if and only if the range ends in the piece
  that it starts in (`Store.ReadExactIff`); metadata longer than one piece is therefore misread (`UtMetadata.MetadataReadBackIff`).
- A chunk can be handed out if and only if it is unclaimed, completed or not (`StoreClaims.HandedOutIff`); a chunk whose data arrives
  after its claim was released is completed and unclaimed (`StoreClaims.CompletedUnclaimed`).
- A piece that has all of its chunks is settled: if it does not validate then, nothing ever replaces its chunks or writes it
  (`StoreLimits.FullPieceIsSettled`, with an input in `StoreLimits.BadPieceIsLost`).
- The fields of a piece message are not checked: exactly those listed by `Replies.InsideIff` index inside the completed bitfield, and
  some for pieces that do not exist are taken for chunks that do (`Replies.MessageAliases`).
- A zero-length keepalive leaves the reader's header loaded; every message of a conversation is read if and only if none follows a
  keepalive (`Frames.AllReadIff`, `FrameReaders.KeepAliveStops`).
- `write_buffer_tail` is cleared after a partial send; the write queue keeps every octet in order if and only if nothing is written
  while data is left over from such a send (`WriteQueues.FifoIff`, with a run in `WriteQueues.LeftoverIsLost`).
- The handshake compares eight of the twenty octets of the info hash (`PeerHandshake.HashToldApartIff`), and an answer that has not
  arrived whole when it is first looked at ends the connection (`PeerHandshake.HandshakeCompletesIff`).
- `buffered_socket_connect` reports failure with 1 while `peer_connect` tests for -1, so a failed connect is not noticed. When
  `socket()` gives no descriptor, nothing but the ten-second timeout ends the connection (`PeerHandshake.FailedConnectIff`). When
  `fcntl()` or `connect()` fails, the descriptor stays, the run goes on as after a good connect, and a hang-up that
  `peer_handle_network_buffers` sees ends it as well.
- The timeout of a finished handshake (119.5 s) comes before the keepalive (120 s), so a connection that is given a keepalive is
  dropped in the same run (`PeerInvariant.KeepAliveIsDropped`). The comments speak of 2.5 minutes.
- BEP 3 wants the bitfield right after the handshake. `PeerLogs.BitfieldIsFirstIff` says exactly when it is there;
  `PeerWitnesses` has a run of the program for each way in which it is not.
- `peer_run` looks at `needed` once for the bitfield and again for the requests. If it becomes 1 in between, requests read past a peer
  bitfield that was made before the number of pieces was known (`PeerWitnesses.RequestsLookPast`);
  `PeerPieces.RequestsSeeEveryPieceIff` says exactly when they do not.
- A pool made with no threads, as test/test_torrent.c:48 does, never runs a job; with at least one thread none is left behind
  (`ThreadPool.RestIsDoneIff`).

## Model

| member | source | states |
|---|---|---|
| `Bitfields.Bitfield.constructor` | src/bitfield/bitfield.c:12-34 | a new bitfield holds the default bit in every bit and the default byte's bits in the padding |
| `Bitfields.Bitfield.SetBit` | src/bitfield/bitfield.c:46-62 | changes exactly one bit, most significant first, and ignores bits past the count, so padding never changes |
| `Bitfields.Bitfield.GetBit` | src/bitfield/bitfield.c:64-71 | reads any stored bit, padding included |
| `Bitfields.FullByte` | src/torrent/torrent_data.c:531-533 | a byte is 0xFF exactly when its eight bits are set, and 0x00 exactly when they are clear |
| `Completion.FreshIsPadded` | src/torrent/torrent_data.c:164-165 | the completed bitfield starts with its padding set, whatever the number of chunks |
| `Completion.ByteTestExact` | src/torrent/torrent_data.c:519-539 | for pieces of a multiple of eight chunks the byte-wise test holds exactly when every chunk of the piece is completed, the short last piece included |
| `Completion.ByteTestMisses` | src/torrent/torrent_data.c:524-525 | for every other piece size there are bits that pass the test with a chunk missing |
| `Completion.ByteTestExactIff` | src/torrent/torrent_data.c:519-539 | the test is exact for all bits and pieces if and only if the piece size is a multiple of eight chunks |
| `Files.AddFile` | src/torrent/torrent_data.c:76-109 | a file is appended at the end of the list, keeps the files contiguous and extends their concatenation |
| `Files.ScatterFile` | src/torrent/torrent_data.c:343-375 | one file takes exactly the part of the piece that overlaps it, empty files and touching ends included |
| `Files.Scatter` | src/torrent/torrent_data.c:332-382 | for every list of contiguous files the concatenation afterwards is the old one with the piece laid over it and nothing else changed, and the count of written bytes is the part of the piece inside the files |
| `Files.GatherFile` | src/torrent/torrent_data.c:439-460 | one file contributes exactly its overlap with the piece |
| `Files.Gather` | src/torrent/torrent_data.c:432-467 | the bytes read are those of the concatenation at the piece, up to the end of the files |
| `Files.ScatterThenGather` | src/torrent/torrent_data.c:332-467 | a piece that lies inside the files reads back as it was written |
| `HashMaps.HashMap.HasKey` | src/hash_map/hash_map.c:84-98 | true exactly for the keys of the map that the chains refine, for any hash function |
| `HashMaps.HashMap.Get` | src/hash_map/hash_map.c:56-82 | returns the value of the key and removes exactly that key |
| `HashMaps.HashMap.Set` | src/hash_map/hash_map.c:100-136 | fails exactly on a present key and otherwise adds it |
| `HashMaps.HashMap.TakeAny` | src/hash_map/hash_map.c:138-167 | removes and returns one stored value, and returns nothing exactly when the map is empty |
| `HashMaps.HashMap.Drain` | src/hash_map/hash_map.c:138-167 | called until it returns nothing it hands back the value of every key once and leaves the map empty |
| `HashMaps.DrainedDry` | src/hash_map/hash_map.c:138-167 | what a complete drain returned are all the keys, each once |
| `HashMaps.HashMap.Peek` | src/torrent/torrent.c:238-239 | getting a peer and setting it again restores the map |
| `ClaimLists.ClaimList.Push` | src/torrent/torrent_data.c:198-206 | a new record goes to the front of the linked list |
| `ClaimLists.ClaimList.Unlink` | src/torrent/torrent_data.c:243-255 | unlinks exactly the node at hand in place, head or not, and leaves the pointers for the walk to go on |
| `TorrentDatas.TorrentData.constructor` | src/torrent/torrent_data.c:144-179 | the state after the data size is set: nothing claimed, nothing completed, everything left |
| `TorrentDatas.TorrentData.IsPieceComplete` | src/torrent/torrent_data.c:519-539 | the loop over the bytes of a piece computes the byte-wise test |
| `TorrentDatas.TorrentData.ValidatePiece` | src/torrent/torrent_data.c:117-142 | succeeds without hashes, fails past their end, and otherwise compares the SHA-1 digest of the piece with its hash as strncmp does |
| `TorrentDatas.TorrentData.CompareText` | src/torrent/torrent_data.c:134 | byte comparison that stops at a common zero byte |
| `TorrentDatas.TorrentData.ClaimChunks` | src/torrent/torrent_data.c:187-225 | each turn claims the first chunk that is unclaimed and of interest, dates its record, and the call succeeds exactly when some turn found one |
| `TorrentDatas.TorrentData.ReleaseExpired` | src/torrent/torrent_data.c:227-266 | the in-place walk over the linked records has the effect of the release function on the whole state |
| `TorrentDatas.TorrentData.WriteChunk` | src/torrent/torrent_data.c:285-408 | the whole new state and the return value for every chunk index, size and state: refused, held in memory, written out, or failed at the end of the files |
| `TorrentDatas.TorrentData.ReadData` | src/torrent/torrent_data.c:411-489 | returns the bytes from the offset to the end of its piece over and over, cut to the length, and fails exactly when the piece runs past the files |
| `Geometry.Config.ChunkExists` | src/torrent/torrent_data.c:161-161 | a chunk number is below the chunk count exactly when its offset lies in the data, and then the chunk is not empty |
| `Geometry.Config.ChunkInside` | src/torrent/torrent_data.c:492-517 | a chunk lies in one existing piece and ends inside that piece's data |
| `StoreClaims.ClaimsAlwaysConsistent` | src/torrent/torrent_data.c:187-266 | after every sequence of claims, releases and writes a chunk has at most one record, a record implies its claimed bit, and a claimed bit implies a record or a completed chunk |
| `StoreClaims.ReleaseExact` | src/torrent/torrent_data.c:235-260 | exactly the records past their deadline are gone, exactly their uncompleted chunks are free again, and nothing else changed |
| `StoreClaims.NeverHandedOutAgain` | src/torrent/torrent_data.c:194-239 | a chunk completed while claimed stays claimed through every later run and no claim returns it |
| `StoreClaims.ClaimLasts` | src/torrent/torrent_data.c:196-239 | a chunk that a claim handed out stays claimed through every run while no release reads a time more than the timeout, in seconds, after its turn; a release that reads later times gives it back unless its data has come |
| `StoreClaims.HandedOutIff` | src/torrent/torrent_data.c:194-194 | a chunk can be handed out if and only if it is unclaimed, completed or not |
| `StoreClaims.CompletedUnclaimed` | src/torrent/torrent_data.c:285-325 | data that arrives for a chunk completes it, and it stays claimed exactly when a record is still there |
| `StoreData.WriteOutcome` | src/torrent/torrent_data.c:306-404 | an accepted write settles the piece that the accepted chunks make up, and flushes it exactly when it is full and validates |
| `StoreData.RunMeansFirstAccepted` | src/torrent/torrent_data.c:285-408 | after every run, in any order and with duplicates, bits, buffers, files and counters are those that the first accepted data of each chunk determines |
| `StoreReports.WriteReports` | src/torrent/torrent_data.c:286-404 | a write reports success if and only if it makes its piece full and the piece validates, and exactly then one piece more is counted |
| `StoreReports.ReportedIsFlushed` | src/torrent/torrent.c:594-603 | over every run the pieces that writes report are the flushed ones, each once, as many as are counted; needed data stays needed until all are there |
| `StoreTheorems.FilesAreTheTorrent` | src/torrent/torrent_data.c:285-408 | every byte of a flushed piece in the files is the byte of the first accepted data of its chunk, and every other byte is untouched |
| `StoreTheorems.ChunksSumToData` | src/torrent/torrent_data.c:492-504 | the chunk sizes add up to the data size |
| `StoreTheorems.CountersConserved` | src/torrent/torrent_data.c:386-401 | downloaded plus left is the data size, downloaded is the sum of the completed chunks, and each flushed piece is counted once |
| `StoreTheorems.CompleteMeansEverything` | src/torrent/torrent_data.c:541-546 | complete holds exactly when every piece is flushed; then all bits are set, nothing is left and the files hold the accepted data |
| `StoreLimits.FullPieceIsSettled` | src/torrent/torrent_data.c:290-393 | once all chunks of a piece are in, no continuation of a run replaces one of them, the piece counts as flushed exactly if it does already, and its bytes in the files stay equal |
| `StoreLimits.BadPieceIsLost` | src/torrent/torrent_data.c:390-393 | the input: with a hash that is wrong in its first octet a one-octet torrent is completed by its only write and no continuation ever writes it to the files |
| `StoreLimits.UnalignedIsWrong` | src/torrent/torrent_data.c:519-539 | for every piece size that is no multiple of eight chunks, the run that leaves a full piece out of the files |
| `StoreLimits.FilesExactIff` | src/torrent/torrent_data.c:285-408 | of all piece sizes that chunks fill, the files are the torrent after every run if and only if the piece size is a multiple of eight chunks |
| `StoreTheorems.SameTextStops` | src/torrent/torrent_data.c:134-134 | with a zero byte in the hash only the bytes up to it are compared |
| `StoreTheorems.HashComparisonExactIff` | src/torrent/torrent_data.c:133-136 | the comparison decides equality for every digest if and only if the hash has no zero among its first 19 bytes |
| `Store.ReadExactIff` | src/torrent/torrent_data.c:416-480 | the read returns the range for every content of the files if and only if the range ends inside its first piece |
| `Sha1.ChooseForms` | src/sha1/sha1.c:44-45 | the rewritten choice function equals the one of RFC 3174 section 5 |
| `Sha1.MajorityForms` | src/sha1/sha1.c:47-47 | the rewritten majority function equals the one of RFC 3174 section 5 |
| `Sha1.Blk` | src/sha1/sha1.c:32-41 | the word stored over the slot that is no longer needed is the one of the plain 80-word schedule |
| `Sha1.Round` | src/sha1/sha1.c:43-48 | a round macro on renamed registers is one turn of the plain definition |
| `Sha1.Transform` | src/sha1/sha1.c:53-177 | the in-place rounds refine RFC 3174 section 6.1 for every state and block |
| `Sha1Vectors.Test1Digest` | src/sha1/sha1.c:28-48 | the digest of "abc" that RFC 3174 section 7.3 gives |
| `Sha1Vectors.Test2Digest` | src/sha1/sha1.c:28-48 | the digest of TEST2 of RFC 3174 section 7.3, which fills two blocks |
| `Sha1.CountersAdd` | src/sha1/sha1.c:207-210 | the split counter with its carry adds eight times the length modulo 2^64 |
| `Sha1.Context.Init` | src/sha1/sha1.c:181-192 | the context holds the empty message |
| `Sha1.Context.Update` | src/sha1/sha1.c:197-229 | a context that holds a message holds the message followed by the data, wherever the block boundaries fall |
| `Sha1.Context.Final` | src/sha1/sha1.c:234-279 | the padding loop ends and the digest is that of RFC 3174 for the message held |
| `Sha1.DigestOfParts` | src/sha1/sha1.c:181-279 | every way of splitting a message into updates gives the digest of the whole |
| `Sha1.OneShot` | src/sha1/sha1.c:281-294 | octet by octet, then the zero that terminates the text |
| `Queues.Queue.Push` | src/thread_pool/queue.c:35-64 | appends to the queue that the linked nodes represent |
| `Queues.Queue.Pop` | src/thread_pool/queue.c:66-89 | removes and returns the first element, or nothing exactly when the queue is empty |
| `Queues.Queue.Count` | src/thread_pool/queue.c:91-97 | the number of elements |
| `Queues.Queue.PopAll` | src/thread_pool/thread_pool.c:66-71 | emptying returns the elements in the order of the pushes |
| `ThreadPool.EveryRunKeeps` | src/thread_pool/thread_pool.c:9-97 | in every interleaving each queued job has a token, a woken worker or an adder about to post, each job taken is running or freed, and after cancellation tokens cover the workers in sem_wait |
| `ThreadPool.RunsAtMostOnce` | src/thread_pool/thread_pool.c:12-20 | no job runs twice or is freed twice, and jobs start in the order of the pushes |
| `ThreadPool.EveryRunStaffed` | src/thread_pool/thread_pool.c:82-91 | in every interleaving the pool has a thread for each job that was added, up to its maximum and never more |
| `ThreadPool.RestMeansAllDone` | src/thread_pool/thread_pool.c:12-94 | no wake-up is lost: a pool that may have a thread comes to rest only with every submitted job run in order and freed exactly once |
| `ThreadPool.RestIsDoneIff` | src/thread_pool/thread_pool.c:82-94 | coming to rest means all jobs are done, over every interleaving, if and only if the pool may have a thread at all |
| `ThreadPool.FreeingAdvances` | src/thread_pool/thread_pool.c:54-80 | while the pool is being freed some thread can always move, so joining never blocks |
| `ThreadPool.FreeReturns` | src/thread_pool/thread_pool.c:54-80 | after cancellation every run is bounded, and a run can go on if and only if the pool is not freed yet |
| `ThreadPool.DoneMeans` | src/thread_pool/thread_pool.c:65-76 | when the pool is freed every submitted job has been freed exactly once, run or drained |
| `Bencode.DecodeIntText` | src/bencode/bencode.c:83-117 | a printed 64-bit number is read back, and reading stops at the first byte that is no digit |
| `Bencode.DecodeStrText` | src/bencode/bencode.c:119-148 | a printed string is read back, whatever its bytes and whatever follows |
| `BencodeGrammar.DecodeIsSound` | src/bencode/bencode.c:169-250 | whatever is taken off a buffer is a bencoded form, by the grammar of BEP 3, of the value that is returned, and within the nesting limit |
| `BencodeGrammar.DecodeIsComplete` | src/bencode/bencode.c:169-250 | every bencoded form of a value, whatever follows it, is taken whole and read as the value, or refused exactly for its nesting |
| `BencodeGrammar.TextSpells` | src/bencode/bencode.c:340-410 | what is printed is a bencoded form of the value |
| `BencodeGrammar.DecodeText` | src/bencode/bencode.c:169-250 | for every tree of 64-bit numbers and every trailer, decoding the text followed by the trailer gives the tree and takes exactly its text if the nesting fits the limit, and fails otherwise |
| `BencodeReader.ParseInt` | src/bencode/bencode.c:83-117 | the digit loop with sign and overflow flag computes the specified number and length |
| `BencodeReader.ParseStr` | src/bencode/bencode.c:119-148 | the string or the failure that the specification gives |
| `BencodeReader.Parse` | src/bencode/bencode.c:169-241 | the recursive parser computes the specified result on every buffer |
| `BencodeReader.ParseItems` | src/bencode/bencode.c:202-213 | the list loop gathers the items up to the end mark or fails |
| `BencodeReader.ParseEntries` | src/bencode/bencode.c:214-233 | the dictionary loop gathers key and value pairs up to the end mark or fails |
| `BencodeWriter.TmpBufFits` | src/bencode/bencode.c:319-324 | every 64-bit number with its delimiters fits the 32-byte scratch buffer |
| `BencodeWriter.EncodeStr` | src/bencode/bencode.c:321-335 | fails exactly when the text is longer than the capacity, else writes it and returns its length |
| `BencodeWriter.Encode` | src/bencode/bencode.c:337-409 | without a buffer returns the length; with one succeeds exactly when that length fits the capacity, returns it, holds the text, and writes nothing outside the capacity |
| `BencodeWriter.EncodeItems` | src/bencode/bencode.c:363-385 | the same for a list |
| `BencodeWriter.EncodeEntries` | src/bencode/bencode.c:386-406 | the same for a dictionary |
| `BencodeDict.Find` | src/bencode/bencode.c:420-434 | the value of the first entry whose key reads as the C string |
| `BencodeDict.LookupAdded` | src/bencode/bencode.c:420-480 | an added entry is found by its key unless an earlier one has it, and every other lookup is as before |
| `UtMetadata.DataMessageSplits` | src/peer/peer_ut_metadata.c:64-82 | a data message with any payload is one frame, of type 1, and splits into the same piece number and payload |
| `UtMetadata.RequestMessageReads` | src/peer/peer_ut_metadata.c:132-145 | a request message is one frame, of type 0, for the chunk that was claimed |
| `UtMetadata.MetadataExchange` | src/torrent/torrent.c:477-494 | a metadata chunk that is asked for arrives as the sender's bytes and is accepted exactly when it is still missing |
| `UtMetadata.MetadataReadBackIff` | src/torrent/torrent.c:500-502 | reading all metadata back is exact if and only if it is no longer than one piece |
| `UtMetadata.HandleRequest` | src/peer/peer_ut_metadata.c:49-99 | a complete store answers with the dictionary and the chunk, an incomplete one does not |
| `UtMetadata.ProcessPiece` | src/torrent/torrent.c:477-494 | the payload behind the dictionary is written under the dictionary's piece number, and a message that does not decode changes nothing |
| `Frames.ParseFlatten` | src/peer/peer_messages.c:53-92 | whole messages parse to themselves, whatever follows |
| `Frames.AllReadIff` | src/peer/peer_messages.c:53-56 | every message of a conversation is read if and only if none follows a keepalive |
| `FrameReaders.Conservation` | src/peer/peer_messages.c:13-93 | for every interleaving of arrivals and polls, returned messages, loaded header and buffer make up the octets received, and only a bad id closes the connection |
| `FrameReaders.DecodingIgnoresFragmentation` | src/peer/peer_messages.c:13-93 | the messages returned, with those still pending, are what the whole stream parses to, however it was cut up |
| `FrameReaders.SameStreamSameMessages` | src/peer/peer_messages.c:13-93 | two runs over the same octets that have nothing left to return have returned the same messages |
| `FrameReaders.KeepAliveStops` | src/peer/peer_messages.c:53-56 | once the header of a keepalive is loaded the connection returns no message again |
| `FrameReaders.MessageReader.NetworkRead` | src/buffered_socket/buffered_socket.c:277-289 | what arrives goes to the end of the read buffer |
| `FrameReaders.MessageReader.SocketRead` | src/buffered_socket/buffered_socket.c:293-328 | all the octets asked for, or none and no change |
| `FrameReaders.MessageReader.ReadMessage` | src/peer/peer_messages.c:13-93 | one call of the resumable reader, with its loaded length and id, does what the step function says |
| `WriteQueues.Accounts` | src/buffered_socket/buffered_socket.c:157-231 | sent and queued octets are those written, in order, while nothing was written over a leftover, and fewer than were written ever after |
| `WriteQueues.FifoIff` | src/buffered_socket/buffered_socket.c:157-231 | sent and queued octets make up what was written, in order, if and only if nothing was written over a leftover |
| `WriteQueues.LeftoverIsLost` | src/buffered_socket/buffered_socket.c:171-231 | the run: whatever a short send left of a message is lost when another is written |
| `WriteQueues.SocketWriter.BufferedWrite` | src/buffered_socket/buffered_socket.c:157-187 | the unsent octets grow by the data if the tail is set or nothing is unsent, and otherwise become the data alone |
| `WriteQueues.SocketWriter.NetworkWrite` | src/buffered_socket/buffered_socket.c:189-245 | sends from the head as much as the network takes, and clears the tail unless a write of no octets made it return |
| `Requests.PicksAreLowest` | src/torrent/torrent_data.c:192-214 | the chunks of a round are distinct, increasing, the lowest free ones of interest, and as many as asked for or as exist |
| `Requests.ClaimOutIsPick` | src/torrent/torrent_data.c:192-214 | turn k of a claim returns the k-th of those chunks |
| `Requests.BuildInterest` | src/peer/peer_messages.c:418-435 | the bit of a chunk is set exactly when the peer has the chunk's piece |
| `Requests.RequestRound` | src/peer/peer_messages.c:418-477 | a round requests exactly those chunks of the pieces that the peer has, for the room in the pipeline, and claims them |
| `Requests.PipelineIsBounded` | src/peer/peer_messages.c:437-473 | a round never takes the pending requests above ten |
| `Requests.RequestParsesBack` | src/peer/peer_messages.c:456-464 | a request message is one frame and its three fields are read back |
| `WireFormat.BigEndian` | src/net_utils/net_utils.c:85-91 | the first of four octets weighs most |
| `WireFormat.HighBitFirst` | src/bitfield/bitfield.c:46-71 | bit i is the one that 0x80 shifted right by i modulo 8 masks in octet i / 8 |
| `WireFormat.RequestSample` | src/peer/peer_messages.c:456-464 | the seventeen octets of a request |
| `WireFormat.PieceSample` | src/peer/peer_messages.c:498-509 | the octets of a piece message |
| `WireFormat.MetadataRequestSample` | src/peer/peer_ut_metadata.c:132-145 | the text of a metadata request, as BEP 9 has it |
| `WireFormat.MetadataPieceSample` | src/peer/peer_ut_metadata.c:64-82 | the text of the header of a metadata piece |
| `Requests.RequestReplyRoundTrip` | src/peer/peer_messages.c:451-509 | request, reply and the receiver's arithmetic compose to the same chunk with the bytes that the seeder's files hold for it |
| `Requests.ReplyIsAccepted` | src/torrent/torrent.c:584-597 | such a reply is accepted exactly when the chunk is not completed yet |
| `Replies.ProcessDataChunk` | src/torrent/torrent.c:578-597 | the block of a piece message is written under the chunk number that its fields come to, with the conversions of the C types, and the result is what the write reports |
| `Replies.ReplyIsWritten` | src/torrent/torrent.c:584-597 | the reply to a request is written to the chunk that was asked for, with the bytes of the seeder's files |
| `Replies.InsideIff` | src/torrent/torrent.c:586-597 | exactly which piece messages index inside the completed bitfield, wrap-around and truncation included |
| `Replies.ChunksAreInside` | src/torrent/torrent.c:586-597 | the fields of a request for a chunk come to that chunk, which is inside |
| `Replies.PlainInsideIff` | src/torrent/torrent.c:586-597 | for offsets of fewer than 2^32 chunks: those below the end of the bitfield's last byte |
| `Replies.MessageOutside` | src/torrent/torrent.c:586-597 | a message that indexes past the bitfield |
| `Replies.MessageAliases` | src/torrent/torrent.c:594-597 | a message for a piece that does not exist is taken for the first chunk |
| `Downloads.FlushedIsSeed` | src/torrent/torrent.c:578-597 | after every run whose writes are replies of a seeder, in any order and with duplicates, each byte of a flushed piece is the seeder's |
| `Downloads.FullIsFlushed` | src/torrent/torrent_data.c:117-142 | with the hashes of the seeder's pieces, a piece is flushed if and only if all of its chunks are in |
| `Downloads.DownloadIsSeed` | src/torrent/torrent_data.c:285-408 | such a run is complete if and only if every chunk has arrived, and then nothing is left or needed and the files are the seeder's |
| `Requests.HandleRequest` | src/peer/peer_messages.c:486-514 | the reply echoes index and begin and carries what the one-piece read returned |
| `PeerRunner.Peer.Run` | src/peer/peer.c:137-281 | one run keeps what is promised of the log and the talk of its connections, leaves an open one settled, and has the effect of the transition function |
| `PeerRunner.Peer.HandleHandshake` | src/peer/peer_connect.c:84-134 | the loop over the info hash and the choice of the answer do what the transition function says |
| `PeerRunner.Peer.UpdateInterested` | src/peer/peer_messages.c:156-181 | interest changes, and is told, exactly when the scan for a missing piece that the peer has says otherwise than before |
| `PeerRunner.Peer.SendBitfield` | src/peer/peer_messages.c:325-382 | sent once, with a bit for each complete piece, and a short peer bitfield is enlarged |
| `PeerRunner.Peer.SendHaves` | src/peer/peer_messages.c:282-310 | all finished pieces are announced in order and interest is updated |
| `PeerRunner.Peer.Learn` | src/peer/peer_messages.c:312-412 | after a have or a bitfield message interest is exactly as the peer's pieces call for |
| `PeerRunner.Peer.SendRequests` | src/peer/peer_messages.c:414-477 | one request for each chunk that was claimed, at most as many as there is room for |
| `PeerHandshake.HandshakeCompletesIff` | src/peer/peer_connect.c:84-99 | a peer that has some of the answer completes the handshake if and only if all 68 octets are there and the first eight of the info hash agree, and is dropped otherwise |
| `PeerHandshake.HashToldApartIff` | src/peer/peer_connect.c:93-98 | two info hashes are told apart if and only if they differ in their first eight octets |
| `PeerHandshake.WrongHashAccepted` | src/peer/peer_connect.c:93-98 | for every info hash, a different one that is accepted |
| `PeerHandshake.StrandedRun` | src/peer/peer_messages.c:139-154 | a run does nothing to a peer whose connect failed, except to disconnect it once ten seconds have passed |
| `PeerHandshake.FailedConnectRun` | src/peer/peer_connect.c:17-35 | the run that tries to connect and gets no descriptor leaves the peer connected, without one and with nothing given to send, if and only if it ends within ten seconds |
| `PeerHandshake.FailedConnectIff` | src/peer/peer_connect.c:17-35 | through every sequence of events after such a run the attempt goes on, with nothing given to send, if and only if no run ends more than ten seconds after it |
| `PeerInvariant.ConnectionsAreProper` | src/peer/peer.c:12-281 | over every sequence of runs each connection's messages begin with its only handshake, hold at most one bitfield, alternate unchoke and choke and interested and not interested from the positive one, request only while interested; the flags say what was last sent; pending requests are requests minus pieces and at most ten; no open connection has been given a keepalive |
| `PeerTalks.ConnectionsAreAttentive` | src/peer/peer_messages.c:202-415 | over every sequence of events the choking and interest flags of the peer and its metadata id are what it last said over the connection, and over each connection, past or open, every request was made while its last word on choking was unchoke, metadata was asked only of a peer that gives it, and every request of the peer was answered once |
| `PeerDuties.EveryPieceIsAnnounced` | src/peer/peer_messages.c:282-310 | over every sequence of events the finished pieces handed to a peer are those it announced, each once and in order, over whichever connection, and those that wait |
| `PeerDuties.RunSettles` | src/peer/peer.c:171-194 | after a run an open connection has no piece left to announce and is choked exactly if it has no upload slot |
| `PeerDuties.AsksExactly` | src/peer/peer_messages.c:414-477 | a run asks for as many chunks as were claimed and as ten outstanding requests allow, and for none unless the data is needed, the peer has unchoked us and is of interest |
| `PeerDuties.BitfieldTells` | src/peer/peer_messages.c:329-359 | the bitfield that is sent has the bits of exactly the complete pieces |
| `PeerDuties.InterestIs` | src/peer/peer_messages.c:156-181 | a peer is of interest exactly while it has a piece that is missing here |
| `PeerDuties.BitfieldIsLearnt` | src/peer/peer_messages.c:384-411 | a bitfield message sets and clears the bits that it has and no other |
| `PeerDuties.IdleRunEndsIff` | src/peer/peer_messages.c:139-154 | a quiet connection is given up exactly when more than 119.5 seconds have passed since something arrived |
| `PeerDuties.StaysAway` | src/peer/peer_connect.c:36-52 | a peer that was disconnected makes no connection for 30 seconds |
| `PeerInvariant.LeadIsLast` | src/peer/peer_messages.c:183-274 | for messages that take turns, being one ahead means being the last sent |
| `PeerInvariant.KeepAliveIsDropped` | src/peer/peer_messages.c:119-154 | a connection that is given a keepalive is disconnected in the same run |
| `PeerLogs.BitfieldIsFirstIff` | src/peer/peer.c:137-194 | over every sequence of events and for every connection, open or past, that was given a bitfield: it is the message after the handshake if and only if, in the run that sent it, nothing but the handshake had been said, no finished piece waited to be announced and the answer was not an extended handshake |
| `PeerWitnesses.LateForExtensions` | src/peer/peer_connect.c:100-126 | the run: to every peer that offers extensions the extended handshake goes before the bitfield |
| `PeerWitnesses.LateForHave` | src/torrent/torrent.c:597-605 | the run: a piece that is finished after the handshake, before the first run that sees the data needed, is announced before the bitfield |
| `PeerWitnesses.LateForEarlierRun` | src/torrent/torrent.c:328-352 | the run: a peer that is interested and gets an upload slot before the metadata is there is unchoked before the bitfield |
| `PeerPieces.RequestsSeeEveryPieceIff` | src/peer/peer_messages.c:325-423 | over every sequence of events of one download: when a run comes to send requests the peer's bitfield exists, and it has a bit for each piece if and only if the data was seen needed when the bitfield was due, in this run or an earlier one of the connection, or it was long enough before |
| `PeerWitnesses.RequestsLookPast` | src/peer/peer_messages.c:325-423 | the run: the data becomes needed between the two looks of one run, and requests look up every piece in a bitfield of eight bits |

## Left out

- Tracker networking, address resolution, the main program, command line, logging, URL parsing and display: input and output, with
  little to prove.
- Upload-slot assignment: floating-point rates, randomness and a sort without a clean order.
- Real files: each file is a byte sequence of its declared size, so missing files, growth of new files, and input and output errors
  other than a file list that ends too early do not appear.
- The state of the store before its data size is set, and the error returns of torrent_data_set_data_size: only the store after
  initialisation is modelled.
- malloc failures, locks and the order of freeing. Each operation of the store is one step, as its locks make it.
- Machine integers in the store: sizes and offsets are unbounded, so wrap-around of size_t past the end of the data is not modelled.
- Hash map keys are byte strings and the hash any function; the Jenkins hash itself is not modelled. Bucket chains and the file list
  are sequences rather than linked nodes.
- TorrentDatas.TorrentData.WriteChunk: chunk numbers for which the completed bitfield has no bit are not modelled, because the C code
  then reads outside the bitfield; Replies.InsideIff says which messages those are.
- Replies.ProcessDataChunk: the same, and the announcement of a finished piece to the other peers is left out.
- TorrentDatas.TorrentData.ClaimChunks: an interest bitfield shorter than the claimed one is not modelled, because the C code then
  reads outside it.
- TorrentDatas.TorrentData.ReadData: offsets at or past the end of the data are not modelled, because the size of the piece then
  wraps around in the C code.
- TorrentDatas.TorrentData.ValidatePiece: pieces of more than 2^32 - 64 octets and hash lists shorter than one hash, for which the C
  code wraps around, are not modelled.
- StoreData.WriteOutcome: stated for piece sizes that are multiples of eight chunks, since StoreLimits.FilesExactIff shows that only
  those work, and for files that hold the data; the program sets the data size to the size of the files.
- StoreData.RunMeansFirstAccepted: the same.
- StoreReports.WriteReports: the same.
- StoreReports.ReportedIsFlushed: the same.
- StoreTheorems.FilesAreTheTorrent: the same.
- StoreTheorems.CountersConserved: the same.
- StoreTheorems.CompleteMeansEverything: the same.
- StoreLimits.FullPieceIsSettled: the same.
- BencodeGrammar.DecodeIsSound: a numeral that a long long does not hold may be read as any number; DecodeIsComplete is for those
  that it holds.
- Bencode.DecodeIntText: nothing is claimed of numbers beyond 64 bits, where the C code overflows a signed integer; the model wraps.
- BencodeReader.Parse: a number that the buffer ends in is a failure here, while the C code looks at the byte past the end. The read
  amount of a failed call is not modelled.
- BencodeWriter.Encode: the length is unbounded here, while the C code keeps it in a 32-bit int.
- BencodeWriter.EncodeItems: the same.
- BencodeWriter.EncodeEntries: the same.
- be_dump, freeing, and the pointer links of bencode lists, which are sequences here.
- Sha1.Context.Update: one update takes at most 2^32 - 64 octets, since j + len is 32 bits wide in the source.
- Sha1.DigestOfParts: the same.
- Sha1.Transform: the 80 macro lines are 16 repetitions of the same five register renamings, written as a loop.
- UtMetadata.HandleRequest: chunk numbers past the last chunk are not modelled, because the size of the chunk then wraps around in
  the C code.
- UtMetadata.ProcessPiece: piece numbers outside the bitfield and messages shorter than their header are not modelled, nor is what
  happens once the metadata is complete; only the read-back is, in UtMetadata.MetadataReadBackIff.
- Requests.HandleRequest: requests that begin past the data are not modelled, because the size of the piece then wraps around in the C
  code.
- Requests.BuildInterest: a peer bitfield with fewer bits than pieces is not modelled, because the C code then reads outside it;
  PeerPieces.RequestsSeeEveryPieceIff says when one is passed.
- Requests.RequestRound: the same, and what is asked for is stated for piece sizes that are multiples of eight chunks.
- ThreadPool: thread creation is one step with the count that it changes, so two callers that race to create threads are not
  modelled; a job is an identifier, handed over once; the pool is not freed while a job is being added.
- PeerRunner.Peer.Run: writes to the socket's buffer succeed and one run per peer is under way at a time, so the running flag is
  left out; what the torrent looks like is read once per part of a run; the fields of struct Peer are one record, and those that
  load a message are in FrameReaders instead; what other threads do during a run counts as done before or after it; the octets of a
  message are read by FrameReaders, and a run only sees the result.
- PeerRunner.Peer.Learn: a bitfield message longer than the peer's bitfield is ignored, while the C code copies it all.
- PeerPieces.RequestsSeeEveryPieceIff: for one download, in which the number of pieces is fixed once the data is needed, and needed
  data stays needed until it is complete, as torrent.c and torrent_data.c have it.
- Downloads.FlushedIsSeed: for piece sizes that are multiples of eight chunks and files that hold the data, as the theorems it uses.
- Downloads.DownloadIsSeed: the same.
- Transfer rates, polling and the other socket calls: replaced by arbitrary arrivals, capacities and answers.
