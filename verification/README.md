# Verification of transmitic-core

Transmitic is a peer-to-peer file sharer. Two users who know each other's public ids open one
encrypted TCP connection, over which one end asks for a listing and for files, and the other end
answers. Every user has a download queue for each peer, which survives restarts in a small text file
and is changed by messages that arrive while a transfer is running. This project models that core in
Dafny and proves what it is for:

- **The connection** (`FrameCodec`, `EncryptedStream`). Frames of a header and an optional body, each
  encrypted with the next value of one counter that serves both directions. The cipher and the
  checksum are uninterpreted functions, constrained only by inversion, acceptance of nothing but
  ciphertexts, and the 16 added bytes (`Cipher.Valid`). `EncryptedStream` is the class with its two
  buffers; its methods are proved against the functions of `FrameCodec`.
- **The protocol** (`Protocol`, `ProtocolProofs`, `TransferIntegrity`, `Replies`, `Refusals`, `EndToEnd`). Both
  ends as a step system over the real bytes on the wire, with every mailbox, short read, partial
  write, disconnection and reverse connection as a choice of the environment. The theorems are about
  all runs.
- **The serving side** (`Uploads`, `UploadSystem`, `UploaderManager`). The thread that answers
  requests, as a class over the real stream, and the manager with its threads, configuration epochs
  and reverse-list caches, as an interleaving system and as a class that refines it.
- **The asking side** (`QueueFile`, `DownloadQueues`, `DownloadTrees`, `SingleDownloader`). The queue
  as a step system with a history of every item, the accounts of bytes and destinations, and the
  class `SingleDownloader` over the real stream, from the mailbox loop to the thread that restarts
  `run`.
- **What is shared** (`SharedTree`, `Listings`): the tree search, the removal of invalid files, and
  the listing built from the shares and the disk.
- **The sequential algorithms** (`Base64`, `Base64Table`, `Sanitizer`, `Config`, `ConfigLaws`).

`dafny verify dfyconfig.toml` checks everything.

## How to read it

A connection is seen from one end as the bytes that will still arrive (`incoming`) and the number of
bytes the network will still take (`room`), so that a cut at any point is a value of these two.
Mailboxes are sequences of what successive looks into them will find. Words of the machine are
subset types (`u8`, `u64`); shifts and masks are divisions and remainders. An early `?` return is an
`ok` or an `Option` that is false or `None`, and a panic that `catch_unwind` turns into a restart is
the same. Numbers in comments are lines of the source file that the module names.
The loop over the queue has its turns as a ghost result: the item of each, the listing and download
directory it was taken with, the disk before and after, and how it ended.

Where the code and its description differ, the model follows the code:

- `MSG_FILE_FINISHED` frames carry file bytes without a checksum (src/core_consts.rs).
- `decode` accepts some padding that is not at the end, as in `ab=c`, and runs out of range on inputs
  with one character past the last group; `Base64.Meaning` gives the exact result of every input.
- `sanitize_config` is not idempotent: it sorts before it trims, and strips `file://` after it has
  trimmed. `Configs.StableExactly` says on which configurations it changes nothing. A removal may
  therefore be refused: `Configs.RemovalSucceedsExactly` says when, and `Configs.RemovalCanFail`
  shows a configuration, reached by adding one path, that refuses.
- A directory in a listing that holds a file with the directory's own path ends twice, and the next
  item leaves the queue unreported (`DownloadItem`, `SlipTakesNext`). Honest listings have none
  (`Listings.HonestListing`).
- Nothing checks that a selection fits into a frame. One whose path is longer than 99992 bytes is
  written in full, if it is at most six bytes longer than that, and never read; a longer one panics.
- Ports have no lower bound (`Configs.PortOk`).
- The reverse-list cache records that the last listing piece was written, not that the peer has it.

## Model

| member | source | states |
|---|---|---|
| FrameCodec.FrameRoundTrip | src/encrypted_stream.rs:69-254 | For every message type and every payload that the reader has room for behind the header (100000 bytes, with its checksum), and enough counter left, reading what was written consumes exactly those bytes, yields the same type and payload, and leaves the counters equal |
| FrameCodec.AcceptsOnlyFrames | src/encrypted_stream.rs:69-177 | Conversely, whatever a read accepts, of any length, is byte for byte the frame that `write` makes of the result |
| FrameCodec.ReadableExactly | src/encrypted_stream.rs:179-250 | Of the frames that are written in full, which may be six bytes longer, exactly those that fit behind the header are read; the others are out of the reader's range |
| FrameCodec.FailedWriteIsNotRead | src/encrypted_stream.rs:134-146 | What a write that broke off leaves on the wire, and a complete frame that does not fit, is never taken for a frame; the reader starves, has no counter left, or finds it too long, the last only if it does not fit |
| FrameCodec.NonceBytesInjective | src/encrypted_stream.rs:55-67 | Different counter values up to NONCE_MAX have different 12-byte forms |
| FrameCodec.FrameLayout | src/encrypted_stream.rs:134-254 | The frame byte by byte, most significant byte first: two bytes of type and four of length under one counter value; the payload, with four bytes of checksum exactly for listing pieces, chunks and selections, under the next; and the twelve bytes of the counter |
| EncryptedStreams.EncryptedStream.Read | src/encrypted_stream.rs:69-132 | In place over the two buffers: the outcome is that of decoding the incoming bytes, the bytes consumed and the counter are stated for every success and error, and after a success the buffer holds the frame |
| EncryptedStreams.EncryptedStream.Write | src/encrypted_stream.rs:134-146 | For every payload, sends exactly the encoded frame or the part that got through, the header alone when the copy into the buffer panics; advances the counter by one or two, and encrypts with nonces that are new on this stream |
| EncryptedStreams.EncryptedStream.IncrementNonce | src/encrypted_stream.rs:55-61 | Succeeds exactly below NONCE_MAX and then adds one |
| EncryptedStreams.HeldPayload | src/encrypted_stream.rs:148-177 | After a read, message and payload taken from the buffer are those of the received frame, including the size and checksum errors |
| EncryptedStreams.Transmit | src/encrypted_stream.rs:69-254 | Two real streams with equal key and counter: the payload arrives if and only if it fits, the frame got through and the counter sufficed, and then the counters are equal again |
| ProtocolProofs.Lockstep | src/outgoing_downloader.rs:823-883 | In every run, whenever the asking end may start a request both directions are empty, the two counters are equal, and the serving end is between requests or gone |
| ProtocolProofs.NonceUniqueness | src/encrypted_stream.rs:179-250 | In every run, no two encryptions on a connection, of either end, use the same nonce or the same 12-byte form of it |
| ProtocolProofs.StepKeeps | src/incoming_uploader.rs:677-907 | Every step of either end keeps the protocol invariant: who may write, what is on the wires, and how the counters relate |
| ProtocolProofs.ReadsAreSound | src/encrypted_stream.rs:69-132 | In every run, no read meets a forged or mismatched frame; the asking end blocks, finds the counter spent, or succeeds, and only the serving end can find a frame too long, once a selection that does not fit was made |
| ProtocolProofs.LongRun | src/encrypted_stream.rs:179-250 | A frame that is too long comes only from selecting a path that does not fit into a frame |
| ProtocolProofs.LongSelectionEndsServing | src/encrypted_stream.rs:179-250 | And such a selection, when it gets through, is found too long by the serving end's next read |
| ProtocolProofs.NoDeadlock | src/incoming_uploader.rs:715-907 | In every run, the two ends are never both blocked on a read: one of them gets a frame, unless the serving end finds a selection that does not fit |
| ProtocolProofs.InterruptedNeverContinues | src/outgoing_downloader.rs:1094-1110 | In every run, once the stop flag is up on a connection the asking end encrypts nothing more on it, whatever happens next |
| ProtocolProofs.DeadRun | src/outgoing_downloader.rs:879-883 | A connection that the asking end has let go stays so in every continuation |
| TransferIntegrity.ResumedFilesArePrefixes | src/outgoing_downloader.rs:1001-1110 | Destinations that start as prefixes of their sources are prefixes after any number of connections with any schedule, short reads, stops and cuts |
| TransferIntegrity.CompletedFilesAreTheSource | src/outgoing_downloader.rs:1072-1082 | A file reported completed in any session holds the source's bytes up to the expected size |
| TransferIntegrity.ListingsAreComplete | src/outgoing_downloader.rs:564-592 | In every run, from any disk of prefixes, a listing that is received to its end equals the one the serving end has, and is within the limit |
| TransferIntegrity.StepContent | src/incoming_uploader.rs:832-880 | Every step keeps the account of which file bytes are on disk, in flight, and still to be sent |
| Replies.ListReplyShape | src/incoming_uploader.rs:739-776 | A listing of any length becomes max(1, ceil(len/100000)) pieces, all but the last full, exactly the last one FINAL, that add up to it |
| Replies.FileReplyShape | src/incoming_uploader.rs:832-880 | However short the reads, a file reply is a stretch of the file from the requested position, ends in exactly one FINISHED, and stops at the listed size or the end; from a position past the end it is one empty FINISHED |
| Replies.SureToComplete | src/outgoing_downloader.rs:1043-1110 | A resumed transfer completes under all short reads if and only if the source still has its listed size |
| Replies.UnchangedSourceCompletes | src/outgoing_downloader.rs:1057-1082 | With an unchanged source one uninterrupted reply completes the file, from any point of resumption |
| Refusals.FirstReplyTells | src/incoming_uploader.rs:791-812 | In every run, the first reply that the asking end reads tells what the selected path is: after a missing path it fetches the listing anew, after a directory it gives the connection up, and after a file it processes that file |
| Refusals.QuietSelection | src/incoming_uploader.rs:786-850 | In every run, whenever the asking end may select, a selection that fits and that nothing interrupts is answered as its path deserves, with the bytes of the file from the present length on if it is one |
| Refusals.QuietListing | src/outgoing_downloader.rs:564-592 | In every run, whenever the asking end is to fetch the listing, at the start or after a file was missing, an exchange that nothing interrupts brings it the whole listing, however many pieces, or ends the connection if it is too large; then the first fetch goes on to select files, and the forced one gives the connection up |
| Uploads.SingleUploader.ReadReceiver | src/incoming_uploader.rs:909-933 | Shutdown exactly when one of the queued messages says so or the sender is gone; every message is consumed |
| Uploads.SingleUploader.SendListing | src/incoming_uploader.rs:734-776 | Sends a prefix of the listing's pieces on the real stream, all of them unless stopped or cut, and fails exactly when the next piece does not get through; the cache learns the nickname exactly when all was written and nothing said stop |
| Uploads.SingleUploader.SendFile | src/incoming_uploader.rs:832-880 | Sends a prefix of the file reply, all of it unless stopped or cut, with a look into the mailbox between any two frames; it fails only when the next frame does not get through |
| Uploads.SingleUploader.RunLoop | src/incoming_uploader.rs:715-907 | One request: the bytes sent are the complete answer to the request that was read, or a beginning of it when stopped or cut, and it fails only where the request or the connection does; a greeting, and nothing else, hands the stream over unless a stop was found before |
| Uploads.SingleUploader.Serve | src/incoming_uploader.rs:677-704 | Over the whole connection, a reason to stop that the k-th look finds is preceded by at most k writes |
| Uploads.ItemBytesAreFrames | src/incoming_uploader.rs:756-850 | What the thread sends is a chain of frames as the protocol system has them on its wires |
| UploadSystem.EpochSafety | src/incoming_uploader.rs:430-441 | In every interleaving, a nickname in the current cache was put there by a thread with the current configuration, after it had written the complete listing built from it |
| UploadSystem.BoundedRevocation | src/incoming_uploader.rs:430-453 | In every interleaving, a thread that was told to stop begins at most one more write, threads of older epochs have been told, and the manager can still tell all others |
| UploadSystem.SettingsFollow | src/incoming_uploader.rs:406-419 | In every interleaving, the sharing state and the configuration are those that were set last |
| UploadSystem.ServesAsSet | src/incoming_uploader.rs:169-404 | In every interleaving, a live thread that has not been told to stop is one that the present settings allow: sharing is not off, the thread was accepted or dialled as the configuration says, and a dialled user is in it, on this machine if sharing is local |
| UploadSystem.OffRevokes | src/incoming_uploader.rs:409-413 | In every interleaving, after sharing was switched off every thread that is alive has been told, and no thread begins until the sharing state is set again |
| UploadSystem.BeginsExactly | src/incoming_uploader.rs:176-377 | Exactly when a step adds a thread: sharing is on, no message has come, and a connection is accepted or a user dialled as the configuration says; the new thread is held, has the present configuration and cache, and was told nothing |
| UploadSystem.AnswersRequest | src/incoming_uploader.rs:715-850 | In every interleaving, what a thread writes answers the kind of request that it read |
| UploadSystem.ResetReachesAll | src/incoming_uploader.rs:406-441 | A change of configuration or sharing state tells every thread that is alive at that moment, and starts with an empty cache |
| UploadSystem.OneDialPerUser | src/incoming_uploader.rs:236-261 | In every interleaving, at most one live thread of an epoch dials any given user |
| UploadSystem.StepKeeps | src/incoming_uploader.rs:406-453 | Every step of the manager or a thread keeps the invariant of the epochs |
| UploaderManagers.UploaderManager.SendMessageToAllUploaders | src/incoming_uploader.rs:447-453 | Both retain loops in place: each held live thread gets the message once, exactly the dead ones are dropped |
| UploaderManagers.UploaderManager.ResetConnections | src/incoming_uploader.rs:430-441 | Refines the system's reset, including the orphaned receivers and the fresh cache |
| UploaderManagers.UploaderManager.ReadReceiver | src/incoming_uploader.rs:406-428 | Each message starts an epoch of its own, in order; afterwards the last sharing state and the last configuration among the messages hold, or the old ones if there was none, and any message ends the present round |
| UploaderManagers.UploaderManager.AcceptConnection | src/incoming_uploader.rs:360-377 | Refines the system's accept step: dead threads are dropped, the new one is held and has the current configuration and cache |
| UploaderManagers.UploaderManager.DialAll | src/incoming_uploader.rs:234-297 | Afterwards every user that may be dialled is being dialled, nobody twice |
| UploaderManagers.UploaderManager.RunLoop | src/incoming_uploader.rs:169-404 | The manager's loop, over any mailboxes, connections and steps of the threads, is a run of the system, so that everything above holds of it |
| QueueFile.QueueRoundTrip | src/outgoing_downloader.rs:1374-1450 | A queue survives writing and reading if and only if no path contains a newline or ends in whitespace; colons and all u64 sizes are fine |
| QueueFile.AppendItem | src/outgoing_downloader.rs:416-423 | Appending one printed line to a file adds exactly that item at the back |
| QueueFile.LineMeans | src/outgoing_downloader.rs:1378-1402 | A line is read as an item if and only if, trimmed, it is a number of 64 bits, a colon and the path; it is written so, without a sign |
| QueueFile.ParsedLinesOk | src/outgoing_downloader.rs:1378-1402 | Whatever a file parses to can be written back without loss |
| DownloadQueues.QueueOutcome | src/outgoing_downloader.rs:1163-1292 | Over every schedule of messages, starts, ends and restarts: each item ever enqueued is pending and in the queue or has exactly one final fate, reports are the finished items in queue order, the file parses to the queue |
| DownloadQueues.OpKeeps | src/outgoing_downloader.rs:1163-1292 | Each step keeps that account, and reports exactly the item it finishes |
| DownloadQueues.StillFirst | src/outgoing_downloader.rs:1185-1285 | While the stop flag is clear, the active item is still set and still at the front, whatever messages came |
| DownloadQueues.StopExactly | src/outgoing_downloader.rs:1185-1285 | The stop flag is set exactly when a message other than a new download or a resume has come |
| DownloadQueues.CancelTakesOnly | src/outgoing_downloader.rs:1197-1217 | Cancelling a path cancels exactly the pending entries of that path, keeps exactly the queued items of other paths in their order, gives up the active item exactly if it has the path, and changes no other setting |
| DownloadQueues.MessageEffect | src/outgoing_downloader.rs:1170-1285 | For every message: which entries it cancels, which items it takes from the queue or adds, and what it does to pausing, shutdown, the connection handed over and the active item |
| DownloadQueues.LookEffect | src/outgoing_downloader.rs:1170-1292 | Over a whole look: an old entry is cancelled exactly if some message takes its path, and the user is removed exactly if some message says so |
| DownloadQueues.NewItemFate | src/outgoing_downloader.rs:1185-1235 | An item that is enqueued during a look ends the look cancelled exactly if a later message takes its path, and pending otherwise |
| DownloadQueues.LastDecides | src/outgoing_downloader.rs:1170-1260 | Of pausing and resuming, and of the connections handed over, the last message of a look decides; without any, nothing changes |
| DownloadQueues.OfflineAppend | src/outgoing_downloader.rs:406-433 | On a file the program wrote, the offline form has the same effect as enqueueing |
| DownloadTrees.NeverExceeds | src/outgoing_downloader.rs:920-928 | While no file is longer than listed, the running counter stays within the sum of listed sizes |
| DownloadTrees.LeavesSum | src/outgoing_downloader.rs:898-918 | The destinations of a tree account for exactly its leaf sizes |
| DownloadTrees.LeavesAreFiles | src/outgoing_downloader.rs:896-918 | The files of a tree go exactly to the local names of the nodes on the way down to them, with separators between them, below the directory of the tree |
| Downloader.SingleDownloader.ReadReceiver | src/outgoing_downloader.rs:1170-1292 | Drains the mailbox in order; the new state is that of the handled messages, and a lost sender is an error |
| Downloader.SingleDownloader.SetActiveDownloadFinished | src/outgoing_downloader.rs:1163-1168 | Whatever is first leaves the queue, which is saved, and nothing is active afterwards; unless the step is marked as one that slips, the item it is meant for must be first and the stop flag clear |
| Downloader.SingleDownloader.WriteQueue | src/outgoing_downloader.rs:1408-1450 | The file becomes the printed queue; an empty queue has no file, or an empty one if it cannot be deleted |
| Downloader.SingleDownloader.InitializeDownloadQueue | src/outgoing_downloader.rs:1374-1406 | Succeeds exactly when the file parses, and then the queue is what it parses to |
| Downloader.SingleDownloader.Restart | src/outgoing_downloader.rs:704-710 | On a restart, as long as no item has slipped, the queue read back is exactly the queue that was there |
| Downloader.SingleDownloader.WholeLife | src/outgoing_downloader.rs:219-262 | As long as no item has slipped, the queue, the file and the reports of the thread account for every item, over its whole life |
| Downloader.SingleDownloader.GetQueueWithoutActive | src/outgoing_downloader.rs:1362-1372 | The paths of the queue in order, without the active one and with all others |
| Downloader.DownloadEverythingFile | src/outgoing_downloader.rs:564-592 | The result is the cleaned listing collected from the incoming frames up to FINAL, with the size limit checked after each piece; exactly one request is sent |
| Downloader.SingleDownloader.SetEverythingFile | src/outgoing_downloader.rs:1116-1161 | If announced, forced or missing, one request is sent, and success, and then the stored listing, are those of what the incoming frames collect to; otherwise nothing is sent and it succeeds exactly if there is a listing |
| Downloader.SingleDownloader.ReceiveFile | src/outgoing_downloader.rs:1043-1110 | Verdict, stop flag and destination bytes are those of folding the incoming frames, with a look into the mailbox before each further append; the item is reported at most once, and as what the verdict says |
| Downloader.SingleDownloader.FetchFile | src/outgoing_downloader.rs:1001-1110 | The same from the request on, which asks for the file from its present length, and with what the app is told, which for a file of a directory is only that the two ends disagree; the destination only grows at its end, the byte counter grows with it, and the fetch is recorded with all that decides its outcome. Exactly if the reply is that there is no such file, the listing is asked for on the same connection, and kept if it arrives; nothing else is sent, and the listing changes in no other case |
| Downloader.SingleDownloader.AskForFile | src/outgoing_downloader.rs:1001-1030 | The request for a file: what is sent, what listing is kept, and what has been consumed, for every first reply |
| Downloader.SingleDownloader.DownloadLeaf | src/outgoing_downloader.rs:915-1110 | Which of the size checks decides, from sizes known before: changed, too large, present, directory too large, or fetched; what the app is told of that; a request is sent, with all its consequences for the file, the listing and the app, exactly if the file is shorter than listed and its check passes, and otherwise nothing is sent and no listing changes; without an active item it fails |
| Downloader.SingleDownloader.DownloadSharedFile | src/outgoing_downloader.rs:889-1114 | Recursively, for every listing: nothing but the tree's destinations changes, each by its fetches; uninterrupted, the item has ended exactly if a file below has its path; if none has, the counter accounts for the finished files plus the current one at every exit, and uninterrupted every file is through |
| Downloader.SingleDownloader.DownloadDirectory | src/outgoing_downloader.rs:898-914 | The same for the loop over a directory, which looks into the mailbox after every file or subdirectory and ends as soon as something failed or a stop was requested |
| Downloader.SingleDownloader.DownloadItem | src/outgoing_downloader.rs:823-877 | One round removes exactly the item it is about, unless it was interrupted, with exactly one report of the right fate, except exactly if the item is a directory that holds a file of its own path and was not interrupted: then it is reported twice and the next item slips |
| Downloader.SlipTakesNext | src/outgoing_downloader.rs:866-877 | In that case, for every queue, the next item leaves it with the directory's fate, and the reports no longer account for the items unless the two are the same |
| Downloader.SlippingListing | src/outgoing_downloader.rs:929-930 | There is such a listing: a directory with one file of the same path |
| Downloader.SingleDownloader.RunConnection | src/outgoing_downloader.rs:823-883 | For every listing: terminates, without an error only when the queue is empty or a stop was requested. Its turns take the items of the queue in order, each with this listing and this download directory, and the reports and the disk change by these turns alone; if it ends without a stop every item has been taken and, unless one slipped, reported in its turn. An item slips exactly in a turn that ends twice, and none does in a listing without a file below a directory of its path; every item that was in the listing is followed by a look into the mailbox |
| Downloader.SingleDownloader.Run | src/outgoing_downloader.rs:704-887 | For every peer, parser and mailbox: ends gracefully only after a removal of the user; reports and disk change by its turns alone, each with a listing that was worked with, and the queue moves by legal steps only, unless such a listing has a file below a directory of its path |
| Downloader.SingleDownloader.RunOnce | src/outgoing_downloader.rs:717-883 | One round of the outer loop, exactly: it ends the thread if a sender is gone or the user was removed, downloads nothing if paused or if there is nothing to do, and otherwise works on the queue as the messages have left it, over the connection handed over if there is one |
| Downloader.SingleDownloader.RunRound | src/outgoing_downloader.rs:738-883 | One round, which is entered only with the stop flag clear, not paused, and something to do: a connection that the peer opened is used before another is made; which listing is worked with, for every greeting, kept listing and change by other threads; and the turns with it, in the order of the queue |
| Downloader.SingleDownloader.RunThread | src/outgoing_downloader.rs:219-262 | The same over all restarts after errors and panics; nothing is ever lost from the disk, and what is new or longer on it lies below the download directory, at a destination of a node of a listing that was worked with |
| Downloader.OnlyTheirFiles | src/outgoing_downloader.rs:740-747 | For every sequence of turns: files only grow at their end, and those that are new or have grown are destinations, below the download directory, of files of items that were taken, as their listing had them |
| Downloader.CompletedIsThere | src/outgoing_downloader.rs:860-877 | Of every item that was reported as completed, unless two of its files go to one place or it slipped another one: all its files are there when the thread has gone on, at least as they were when it was completed; a file has the size that was queued, and the files of a directory their listed sizes, unless they were longer before |
| Downloader.FileTurn | src/outgoing_downloader.rs:935-965 | A queued file that is not interrupted ends as completed if and only if its listed, queued and present sizes agree; as changed if and only if the listed size is not the queued one; as too large if and only if there is more of it |
| Downloader.DirectoryConservation | src/outgoing_downloader.rs:967-999 | If destinations are distinct and not too long, no file has the directory's path, and the queued size covers the leaves: the directory is never given up as too large, and at completion every file has exactly its listed length; if besides no fetch got more of its file than listed, no destination is too long and the counter stays within the queued size |
| EndToEnd.ListingArrives | src/outgoing_downloader.rs:564-592 | The downloader's loop, fed the uploader's very bytes, has the listing if and only if it is at most 100000000 bytes long |
| EndToEnd.AnnouncedIsCurrent | src/outgoing_downloader.rs:1121-1122 | After a peer has connected and announced so, the round works with the listing that the peer then sends, or with none; whatever listing was kept does not matter |
| EndToEnd.UnannouncedIsKept | src/outgoing_downloader.rs:1123-1141 | Otherwise it works with the listing that is kept, if there is one, whatever the connection brings |
| EndToEnd.GoneIsGivenUp | src/outgoing_downloader.rs:1011-1020 | For every file that the peer no longer shares: its own answer to the selection, and then to the request for a listing, leave exactly its present listing, cleaned, as the one that is kept; in a turn with that listing the item is given up as no longer shared, and the disk stays as it is |
| EndToEnd.FileContinues | src/outgoing_downloader.rs:1043-1110 | The receive loop, fed any number of the uploader's frames for a file of the listed size, extends the destination by the bytes of the source that come next, never past its size, and is whole exactly at that size; the two ends never disagree, it is interrupted only by a message that interrupts, and it breaks only if frames are missing or a sender is gone |
| EndToEnd.FileArrives | src/outgoing_downloader.rs:1043-1110 | The receive loop, fed the uploader's very bytes under any mailbox and any short reads, holds a prefix of the source, reports it whole exactly when it is the source, and never disagrees; without interruption it always gets there |
| EndToEnd.HonestPeerConserves | src/outgoing_downloader.rs:967-999 | For every directory of an honest peer's listing, queued with its listed size, whose files go to distinct places where none is too long yet, and are answered for with files of the listed sizes: however often interrupted, the counter stays within the queued size and no destination gets too long, the directory is never given up, and at completion every file is there in full |
| SharedTree.SearchIsFirstInPreorder | src/utils.rs:11-23 | The search equals the first match in the preorder of the tree |
| SharedTree.DescendantsDiffer | src/utils.rs:11-23 | In a tree with distinct paths no proper descendant of a node has its path |
| SharedTree.DistinctIsEnough | src/outgoing_downloader.rs:929-930 | A tree with distinct paths puts no file below a directory of its own path |
| SharedTree.NoOwnEverywhere | src/outgoing_downloader.rs:929-930 | In a tree that puts no file below a directory of its own path, no directory has such a file at any depth, which the downloader's comparison of paths relies on |
| SharedTree.RemoveInvalidFiles | src/shared_file.rs:84-93 | Retaining and then recursing computes the cleaned tree |
| SharedTree.CleanedIsValid | src/shared_file.rs:84-93 | Afterwards every proper descendant of a well-formed tree is valid |
| SharedTree.CleaningIsIdempotent | src/shared_file.rs:84-93 | A second pass changes nothing |
| SharedTree.CleanedNodes | src/shared_file.rs:84-93 | The nodes that are left are those with no invalid node above them, in their old order |
| SharedTree.CleaningKeepsCover | src/shared_file.rs:84-93 | Every directory's size stays at least the sum of the files left below it |
| Listings.ProcessSharedFile | src/config.rs:1139-1179 | The loop over a directory computes its listed tree, and fails exactly when something in it cannot be read |
| Listings.GetEverythingFile | src/config.rs:1088-1137 | The loop over the shares offers those that are for this user and are there |
| Listings.EverythingShape | src/config.rs:1139-1179 | The listing is well formed, and every node's size is the sum of the files below it |
| Listings.HonestListing | src/config.rs:1088-1179 | What is left of an honest peer's listing after cleaning has no file below a directory of its own path, and every directory's size covers the files below it, even where nested shares list a path twice |
| Listings.OfferedFiles | src/config.rs:1097-1132 | A user is offered exactly the files at or below the paths shared with that user, outside the config directory |
| Listings.HasFileBelow | src/config.rs:1157-1159 | Such a file's path starts with the shared path, and unless it is that path does not contain the config directory |
| Listings.ServedContent | src/incoming_uploader.rs:791-850 | An answer that carries file frames is about a file shared with this very peer, and its bytes are a stretch of that file |
| Listings.RefusedExactly | src/incoming_uploader.rs:791-812 | A selection is refused as invalid if and only if no node of the tree has the path, as a directory if and only if the first node that has it is one, and is otherwise answered with file frames |
| Listings.FilesOnDisk | src/config.rs:1146-1170 | The files of a share are those that names of entries lead to, with the names behind the shared path and one separator before each |
| Base64.Encode | src/base64.rs:121-170 | The stepped loop computes the encoding of section 4 of RFC 4648, of length 4*ceil(n/3) |
| Base64.Decode | src/base64.rs:202-283 | The stepped loop with its early exits gives, for every string, the result determined by its first character outside the alphabet |
| Base64.RoundTrip | src/base64.rs:121-283 | Any bytes come back from their encoding, with all, some or none of its padding |
| Base64.CanonicalInverse | src/base64.rs:226-283 | A decodable string is the encoding of its bytes if and only if it is canonical in the sense of sections 3.2 and 3.5 of RFC 4648 |
| Base64.DecodedLength | src/base64.rs:303-314 | Exactly when the decoded length is the announced capacity |
| Base64.DecodeErrors | src/base64.rs:285-301 | The reported index is the first position outside the alphabet, and the byte is the one there |
| Base64.OverrunsExactly | src/base64.rs:226-231 | Exactly which strings run out of range |
| Base64.IndexOfByte | src/base64.rs:285-301 | Found exactly for characters of the alphabet, with the index that the other table inverts |
| Base64Table.TableIsTheAlphabet | src/base64.rs:27-32 | The table is the alphabet of section 4 of RFC 4648, in its order |
| Base64Table.ReverseInverts | src/base64.rs:36-60 | The reverse table finds exactly the characters of the alphabet, each at its place |
| Base64Table.GroupIsNumber | src/base64.rs:121-170 | Three bytes and their four characters are the same number of 24 bits, most significant part first |
| Base64Table.ShortGroups | src/base64.rs:121-170 | Shorter groups are filled up with zero bits, and padding stands for the characters they do not reach |
| Base64Table.GroupsInOrder | src/base64.rs:121-170 | Whole groups are encoded one after the other |
| Sanitizer.SanitizeDiskPath | src/outgoing_downloader.rs:1466-1501 | The loop of at most ten attempts returns the collapsed path exactly when the attempts suffice |
| Sanitizer.SucceedsExactly | src/outgoing_downloader.rs:1466-1501 | On unix always; elsewhere exactly when the longest backslash run is at most 512, or 256 with a NUL |
| Sanitizer.HalvedRuns | src/outgoing_downloader.rs:1486-1490 | One pass turns every maximal run of n backslashes into ceil(n/2) and keeps everything else; so the longest run is halved and the collapsed path stays the same |
| Sanitizer.SanitizedIsClean | src/outgoing_downloader.rs:1492-1493 | The result has no NUL and no double backslash, and is sanitized to itself |
| Configs.CountsFindDuplicates | src/config.rs:852-881 | Counting each key finds a duplicate exactly when there is one |
| Configs.VerifyConfigSharedUsers | src/config.rs:852-931 | Accepts exactly lists with nicknames distinct ignoring case, distinct public ids and valid users; reports the true count |
| Configs.VerifyConfigSharedFiles | src/config.rs:933-1002 | Accepts exactly lists of distinct valid paths shared with existing users only |
| Configs.VerifyConfig | src/config.rs:698-707 | Accepts exactly the valid configurations |
| Configs.SanitizeSettles | src/config.rs:709-748 | Whatever is sanitized has everything but its paths trimmed |
| Configs.Config.WriteAndSetConfig | src/config.rs:507-527 | The configuration changes exactly when the sanitized copy is valid and written, and then to that copy; the nonce advances or wraps |
| Configs.Config.AddFiles | src/config.rs:180-212 | The loop adds normalized paths that were not shared before; all or nothing |
| Configs.Config.AddUserToShared | src/config.rs:235-277 | Both searches and the early returns on the object, with the outcome of writing |
| ConfigLaws.SharesThatFile | src/config.rs:235-277 | Fails exactly if there is no user of the name or no file of the path, does nothing exactly if it is shared already, and otherwise adds the name to the first file of that path and changes no other |
| Configs.Config.RemoveUser | src/config.rs:412-430 | On success no user and no share has that nickname any more; otherwise nothing changes |
| Configs.Config.UpdateUser | src/config.rs:485-505 | The first user of that name is changed, or nothing |
| ConfigLaws.ChangesThatUser | src/config.rs:464-505 | Updating or allowing a user fails exactly if there is none of the name, and otherwise changes the first of that name in exactly what was asked for |
| ConfigLaws.AddsOrSets | src/config.rs:214-462 | A new user comes last, allowed; each setter and a new id change the one thing they name; everything else stays |
| ConfigLaws.RemovesThatFile | src/config.rs:383-389 | Giving up a share keeps exactly the files of other paths, in their order |
| ConfigLaws.TakesOffThatUser | src/config.rs:391-430 | Taking a user off a share leaves all other users of it and all other shares as they were; removing a user does so on every share, and leaves every user of another name |
| ConfigLaws.SharesNewFiles | src/config.rs:180-212 | Sharing files appends one share, with nobody, for each that is not shared yet, in their order, under its path without `file://` and on windows with backslashes |
| ConfigLaws.SanitizedElements | src/config.rs:709-748 | Element by element: each share keeps its place under its normalized path with its trimmed names in order, the users are those that were there, trimmed, and the switches stay |
| ConfigLaws.PortsUpTo65535 | src/config.rs:750-762 | A port written as a number is accepted exactly up to 65535 |
| Configs.Config.PerformAll | src/config.rs:180-527 | A whole session on the object, with any operations and failing writes: its configuration is that of the run of these operations, and it is valid and settled throughout |
| Configs.RunKeeps | src/config.rs:180-527 | Over every such run the configuration stays valid, which is the guard of writing it, and settled |
| Configs.RemovalSucceedsExactly | src/config.rs:383-430 | From any configuration that the program holds, each of the three removals succeeds if and only if the file can be written and the paths that stay are distinct and acceptable when they are sanitized once more |
| Configs.RemovalsSucceed | src/config.rs:383-430 | In particular removals from a valid, stable configuration never fail validation, and keep it stable |
| Configs.StableExactly | src/config.rs:709-748 | Sanitation leaves a configuration alone if and only if it is trimmed, sorted and free of a strippable prefix |
| Configs.CollisionBlocksRemoval | src/config.rs:709-748 | Two paths that the next sanitation makes equal block every removal of another file |
| Configs.RemovalCanFail | src/config.rs:728-736 | Adding `file://file:// a` to a configuration that shares `a` leaves a valid configuration that refuses to give up any user or any third file |

## Left out

- TCP, DNS, sockets, listeners, sleeps, retry back-off and process exits: connections, schedules and cuts are choices of the environment; that local sharing listens on the loopback address only is not modelled.
- The handshake of src/transmitic_stream.rs and the insides of AES-GCM, PBKDF2, Ed25519, X25519 and CRC: both ends start with the same key and counter 0, and the rest are uninterpreted functions.
- JSON: a listing on the wire is a byte string, and `Host.parse` is what `serde_json` makes of it. That parsing a serialized listing gives it back is not stated.
- UTF-8: a selection is turned into a path by a total function; that a selection which is not UTF-8 ends the serving thread is not modelled.
- File system failures other than a missing or unreadable share: opening, reading, seeking, writing and creating directories succeed, as do writes of the queue file. Path components and `file_contains_only_valid_chars` are opaque (`Naming`, `Platform.pathOk`, `valid`).
- Byte sums are unbounded: the overflow of u64 additions of file sizes in src/config.rs and of the byte counter is not modelled.
- Progress percentages, size strings, log messages and the in-progress messages to the app.
- src/app_aggregator.rs, src/transmitic_core.rs and src/logger.rs only route and log.
- OutgoingDownloader's map of channels and its refresh threads: what other threads do to the listing of a user is an arbitrary `View` before and after it is fetched.
- Freshness of a listing that is kept, where the peer has not announced itself and refused nothing, and the exact keys of `refresh_data`, which the program does not guarantee.
- Downloader.SingleDownloader.ReadReceiver: the new address, keys and download directory that NewSharedUser and NewConfig carry are not part of the state, only that they stop the transfer.
- Protocol.DSelectStep: a selected path is no longer than the longest listing, from which it comes.
- FrameCodec.FailedWriteIsNotRead: is about payloads whose length the 32 bits of the header can hold, as the length of every path can.
- Uploads.SingleUploader.Serve: the thread classes and the protocol's step system follow the same lines of the source, but that a run of these classes is a run of that system is not stated; the same goes for Downloader.SingleDownloader. Of the manager it is (UploaderManagers.UploaderManager.RunLoop).
- Listings.HonestListing: assumes that no name on the disk is empty and that no share is called `everything/` or by a beginning of it, as no absolute path is.
- Downloader.SingleDownloader.RunThread: messages are assumed to hold paths without a newline or trailing whitespace, which QueueFile.QueueRoundTrip shows to be exactly the paths that the queue file can hold.
- DownloadQueues.OfflineAppend: is about files that the program wrote; a file edited by hand that lacks its last newline would merge the appended line with the last one.
- SharedTree.RemoveInvalidFiles: returns the cleaned tree instead of changing it in place, as does Listings.ProcessSharedFile; the tree is owned by one thread, so that no aliasing is lost.
- Listings.ServedContent: the size in the conclusion is the listed one; the bytes are those that are in the file when it is read.
- Base64.Encode: the capacity is computed with integers; the program's f64 division is exact up to 2^53 bits of input. A vector's capacity is taken to be the one that was asked for.
- Configs.Config.SetPassword: covers `encrypt_config` and `decrypt_config` up to the removal of the other file; the salt, the key and the encrypted form of the file are not modelled.
- The reading of a configuration file at start-up, beyond that it is sanitized and validated.
