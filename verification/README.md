# isdn4k-utils: a verified model

Dafny models of the parts of isdn4k-utils in which much can go wrong quietly, with proofs of what
they are for. `dafny verify dfyconfig.toml` checks everything.

## What is modelled

**Area-code lookup** (`areacode/areacode.c`; `AreaDigits`, `AreaSearch`, `AreaText`). Codes are
packed, F-filled words in a sorted file, part of which may be cached in memory. `AreaDigits` says
what a packed word means as a digit string; `AreaSearch` runs the restarting binary search, cache
and failing allocations included, and proves that it finds the longest code that is a prefix of the
number; `AreaText` expands the recursive shortcuts of the info strings into a bounded buffer.

**CAPI 2.0 message codec** (`capi20/convert.c`; `CapiDescriptor`, `CapiWire`, `CapiCodec`,
`CapiReencode`, `CapiTable`, `CapiLayout`, `CapiMessages`). A descriptor string stands for a tree of parameters.
`CapiWire` defines on trees what the standard (COMMON-ISDN-API 2.0, chapters 5 and 6) asks for
(`Encode`), what the library writes (`Written`) and what it reads (`Parse`); `CapiCodec` is the code
itself, with its two shared cursors, proved to do just that; the other modules prove the two round
trips, check every entry of the descriptor table, and put the header around it all. `CapiLayout` says,
apart from the descriptors, how every message of the protocol lies in memory: its fields by name, in
order, with their widths; encoder and decoder are proved against it too.

**Receive buffers** (`capi20/capi20.c`, `capi20/capi_mod_std.c`, `capi20/capiutils.h`; `BufferPool`,
`PoolRuns`, `StdModule`, `StdPort`, `PortSessions`, `OutgoingData`). `BufferPool` is the linked list in the array,
tied to an abstract pool of free and lent buffers. `PoolRuns` follows whole sessions of a driver that
keeps its data window and an application that answers what it was told. `StdModule` and `StdPort` are
the patches of the message bytes and the read and write operations around them; `PortSessions` runs
them through whole sessions and follows the bytes in the buffers; `OutgoingData` follows a data request
from its fields to the bytes the driver gets.

**Application ids** (`capi20/capi20.c`; `ApplIds`). The table shared by all processes; every
operation runs under one semaphore and is one step.

**Fax sender** (`capifax/capifax.c`; `FaxSender`). The ring of eight blocks between the file and the
controller, followed over any run of the sending loop.

**Connection table** (`capifax/id.c`, `capifax/capi.c`, `capifax/connect.c`; `Calls`, `Connections`).
Eight entries found by linear search represent the controller's map from PLCI to call. `Calls` tells
from the exchanges so far which calls are open, what state each is in, and what is answered.

**Firmware layout** (`eicon/eiconctrl.c`; `FirmwareLayout`). One pass measures the downloads a card
needs, a second one copies them, padded, into a block of that size.

Conventions: buffers are arrays of bytes, words are natural numbers with their bounds stated, and
masks over whole digits or bytes are written as division and remainder. Where the source updates
fields, so do the classes here; ghost fields and ghost parameters carry what the proofs follow.
Foreign calls (files, devices, allocation, the controller) appear as parameters or free choices.

## Where code and promise part

- A composed struct of 255 bytes or more loses its last two bytes, because the encoder moves the
  body up without counting the move (`capi20/convert.c:529-533`). The model does the same;
  `WrittenIsStandard` and `LibraryMeetsStandard` say when exactly the output is right, and
  `LongAlertCut` has a message for which it is not.
- Skipping a defaulted group steps over its first code unseen (`capi20/convert.c:462-464`); it ends
  at the right mark exactly when the group begins with a plain parameter (`JumpClosesGroup`), which
  holds for the whole table (`TableWellFormed`).
- A pool whose last buffer is taken and given back never hands out a buffer again
  (`capi20/capi20.c:498-503` and `536`). `GetAndReturn` says when exactly; every method of the pool
  keeps `Broken`, in which `GetBuffer` yields nothing; `PastWindow` brings any pool there with a driver
  that ignores the window; `ReachableSafe` says that otherwise it does not happen.
- A data request longer than the send buffer is answered with an error code where the caller expects
  a length (`capi20/capi20.c:913-915`): `ProcessMessage` says when.
- Noting an id that was assigned elsewhere leaves the highest id as it was
  (`capi20/capi20.c:358-367`); `RememberKeepsMaxId` says when that is right.
- A fax of four bytes or less is not sent (`capifax/capifax.c:214-232`): `SendFax` says so exactly.
- The second firmware pass reads the header's excess from behind the header, and everything after it
  from as many bytes too far (`eicon/eiconctrl.c:424`, `446-453`): `ReadInPlace` says when
  exactly, and `LongHeaderMisread` has a file for which another byte is stored.
- The comment at `areacode/areacode.c:693-697` lets the search stop when the matching digits are
  below or equal to the shortest length; the code stops only below it, and must.

## Model

| member | source | states |
|---|---|---|
| AreaDigits.PrefixIffSameTop | areacode/areacode.c:521-540 | comparing leading digits of packed words decides the prefix relation of the digit strings, in both directions |
| AreaDigits.PrefixSortsLater | areacode/areacode.c:683-692 | a proper prefix of a code sorts strictly after it, so shorter codes lie behind a near miss |
| AreaDigits.ShortenedPacks | areacode/areacode.c:701-704 | the word shortened by the mask is the packed form of the shortened digit string |
| AreaDigits.PacksByNibbles | areacode/areacode.c:442-453 | a word packs a text exactly when its 4-bit digits are the text's characters less '0', and 15 behind it |
| AreaDigits.PackedOrder | areacode/areacode.c:687-692 | packed words are ordered as their texts, character by character, with the end of a text behind every digit |
| AreaSearch.EncodeNumber | areacode/areacode.c:421-458 | a number is refused exactly when it is empty or one of its first eight characters is not '0' to '9'; otherwise digit i of the word is character i less '0', and 15 behind the last |
| AreaSearch.CalcCodeLen | areacode/areacode.c:503-517 | finds the first blank digit |
| AreaSearch.CalcMatchingDigits | areacode/areacode.c:521-540 | the largest number of leading digits that agree |
| AreaSearch.AreaCodeDesc.ReadPhone | areacode/areacode.c:462-476 | an entry read through the cache is the entry of the file, whatever is cached |
| AreaSearch.AreaCodeDesc.LoadTable | areacode/areacode.c:480-499 | whether or not the allocation succeeds, the cache holds nothing but entries of the file |
| AreaSearch.AreaCodeDesc.Probe | areacode/areacode.c:616-637 | caching the range before a probe never changes the entry that is read |
| AreaSearch.AreaCodeDesc.BinarySearch | areacode/areacode.c:615-649 | one round finds the key, or the place with everything before it below the key and everything after it above, within as many probes as the range can be halved |
| AreaSearch.NearMissOrMatch | areacode/areacode.c:655-708 | the first entry above the key is the longest prefix, or every prefix is a later entry with no more digits than it shares with the key |
| AreaSearch.NothingAbove | areacode/areacode.c:660-664 | when all entries are below the key no code is a prefix of the number |
| AreaSearch.TooShort | areacode/areacode.c:698-701 | stopping below the shortest length loses no code |
| AreaSearch.AreaCodeDesc.Round | areacode/areacode.c:613-708 | one search with the key as it is: the longest prefix, or none, or a key shortened to what can still match with every entry that can match still ahead |
| AreaSearch.AreaCodeDesc.Search | areacode/areacode.c:611-712 | for every sorted table of packed codes, memory limit and pattern of allocation failures: finds the longest code that is a prefix, reports none exactly when there is none, within one round per digit above the shortest length plus one and logarithmically many probes a round |
| AreaSearch.AnswerUnique | areacode/areacode.c:611-712 | there is at most one right answer, so the answer does not depend on the cache |
| AreaSearch.GetAreaCode | areacode/areacode.c:550-712 | from the dialled characters to the words of the file: the answer is the word whose digits are most of the number's first characters, none exactly when no word's are, and invalid input is told apart exactly |
| AreaText.LoadShortcut | areacode/areacode.c:292-319 | writes the beginning of the full recursive expansion that fits, and nothing beyond its remaining size; terminates on the order of the shortcuts |
| AreaText.WordByBytes | areacode/areacode.c:303-314 | a shortcut word is expanded byte by byte, from the lowest to the highest that is not 0 |
| AreaText.ExpandByByte | areacode/areacode.c:307-312 | bytes 1 to 30 stand for the shortcut of that number, all others for themselves |
| AreaText.LoadString | areacode/areacode.c:323-358 | the buffer gets exactly the first Count-1 characters of the full expansion and a zero, and no byte beyond Count changes |
| CapiDescriptor.AtUnique | capi20/convert.c:304-410 | a descriptor string has one reading as a tree |
| CapiDescriptor.JumpClosesGroup | capi20/convert.c:459-474 | skipping a group stops at the group's own closing mark exactly when the group begins with a plain parameter |
| CapiWire.WrittenIsStandard | capi20/convert.c:517-535 | the library's bytes are the standard's exactly when no composed group reaches 255 bytes, at any nesting |
| CapiWire.OversizeLosesBytes | capi20/convert.c:525-533 | and otherwise they are fewer |
| CapiWire.ParseEncoded | capi20/convert.c:571-615 | decoding the standard's encoding gives every transmitted parameter, at any nesting and any place of a buffer, and stops at its last byte |
| CapiWire.StoredFields | capi20/convert.c:571-615 | each transmitted parameter arrives with its value, a null struct as an empty one, composed and defaulted marks as sent; nothing else is touched |
| CapiCodec.Cmsg.JumpCStruct | capi20/convert.c:459-474 | the loop stops where the scan over the nesting closes |
| CapiCodec.Cmsg.ParsToMessage | capi20/convert.c:476-538 | the recursive encoder appends exactly the bytes of the tree and leaves both cursors behind it, earlier bytes untouched |
| CapiCodec.CloseGroup | capi20/convert.c:523-533 | the length of a composed group is put in front of its body; from 255 bytes on the body is moved up and cut off as the code does |
| CapiCodec.Cmsg.MessageToPars | capi20/convert.c:571-619 | the recursive decoder stores exactly what the tree reads, and leaves both cursors behind it |
| CapiReencode.Reencode | capi20/convert.c:476-619 | encoding what was decoded from canonical bytes gives back those bytes, at any nesting |
| CapiReencode.EncodedCanonical | capi20/convert.c:476-538 | what the standard's encoder writes is canonical, at any nesting |
| CapiReencode.ParseBounds | capi20/convert.c:571-619 | the decoder never ends before its start or behind the buffer |
| CapiReencode.ParseFrame | capi20/convert.c:571-619 | decoding a list changes only its own parameters |
| CapiTable.CommandsApart | capi20/convert.c:443-453 | no two messages of the protocol share a descriptor's place |
| CapiTable.FlattenedAt | capi20/convert.c:304-410 | the descriptor string written for a tree is read as that tree, wherever it occurs |
| CapiTable.TableWellFormed | capi20/convert.c:304-410 | in every entry of the table parameters are distinct and of the right kind, and every group begins with a plain one |
| CapiLayout.AllDescribed | capi20/convert.c:247-410 | every message's descriptor names the fields of its layout, in order, each with the type of its width |
| CapiLayout.ImageIsEncoding | capi20/convert.c:476-538 | what a descriptor asks for and encodes are the fields of its layout in their widths, the lowest byte first, strings and structures behind their lengths |
| CapiMessages.ImageIsSent | capi20/convert.c:541-568 | every well-filled message of the protocol comes out as its layout, with the header's bytes in front, exactly when no structure of its own is 255 bytes or longer |
| CapiMessages.ConnectRequest | capi20/capiutils.h:1010-1033 | a CONNECT_REQ holds address, CIP value, called and calling number, called and calling subaddress, B protocol, BC, LLC, HLC and additional information, in that order |
| CapiMessages.AllReadBack | capi20/convert.c:571-646 | every transmitted field of a laid-out message arrives under its name, whatever follows the message |
| CapiMessages.Cleared | capi20/convert.c:624 | a field that is not read is 0, absent, or not left out |
| CapiMessages.LibraryMeetsStandard | capi20/convert.c:541-568 | a whole message comes out as the standard asks exactly when none of its composed groups reaches 255 bytes |
| CapiMessages.LongAlertCut | capi20/convert.c:525-533 | an ALERT_REQ with a keypad facility of 255 bytes is a message that comes out otherwise |
| CapiMessages.RoundTrip | capi20/convert.c:541-646 | decoding an encoded message gives the message back, consumes exactly the length in the header, and does not depend on what follows |
| CapiMessages.EchoFields | capi20/convert.c:541-646 | every transmitted parameter of the message given back has the value that was sent |
| CapiMessages.BytesRoundTrip | capi20/convert.c:541-646 | decoding and encoding a canonical message gives back its bytes |
| CapiMessages.SentIsCanonical | capi20/convert.c:541-646 | everything the library sends as the standard asks is canonical when received, so the two round trips are inverse to each other |
| CapiMessages.Cmsg2Message | capi20/convert.c:541-568 | the code leaves the message's layout in the buffer, header and named fields, unless a structure is too long; the bytes are those the round trips are about, and the structure changes in the data address alone |
| CapiMessages.Message2Cmsg | capi20/convert.c:622-648 | whatever fields are laid out in the buffer, the code stores each transmitted one under its name, with the header's numbers and the data's address; it is the message the round trips are about |
| BufferPool.ApplInfo.constructor | capi20/capi20.c:445-482 | 2 + c * (b + 1) buffers, all free, in index order |
| BufferPool.ApplInfo.GetBuffer | capi20/capi20.c:491-509 | hands out the head of the free list, or nothing exactly when it is empty; the list stays acyclic, complete and ended by lastfree, and a broken one stays broken |
| BufferPool.ApplInfo.SaveDataHandle | capi20/capi20.c:511-522 | notes handle and NCCI for one lent buffer and changes no other |
| BufferPool.ApplInfo.ReturnBuffer | capi20/capi20.c:524-547 | appends the buffer to the free list and gives its own handle; on an empty list it breaks the list, and the buffer is neither lent nor free |
| BufferPool.ApplInfo.CleanupBuffers | capi20/capi20.c:549-583 | frees exactly the buffers of the connection, in index order behind the others, keeps the rest, and trips no assertion; a broken list stays broken |
| BufferPool.CleanupExact | capi20/capi20.c:549-583 | freed are exactly the buffers with the NCCI, or with the PLCI as low 16 bits, behind the free ones and in rising order |
| BufferPool.CleanupKeepsOthers | capi20/capi20.c:549-583 | a buffer that stays lent keeps its handle and id |
| BufferPool.GetAndReturn | capi20/capi20.c:491-547 | after a get and a return the list works exactly when two buffers were free before; otherwise it is broken, which every operation of the pool keeps |
| BufferPool.PastWindow | capi20/capi20.c:451 | whatever the pool's size, data indications beyond the window and then one other message break its list |
| BufferPool.Pigeonhole | capi20/capi20.c:543 | the buffers of an acyclic list are at most as many as there are, so the count of used ones is positive when one is returned |
| PoolRuns.WindowBounds | capi20/capi20.c:451 | b unanswered indications on each of c connections are at most c * b, whichever connections they are on |
| PoolRuns.StepKeepsInvariant | capi20/capi20.c:491-583 | every legal event of a session keeps the pool equal to the ledger of unanswered indications |
| PoolRuns.ReachableSafe | capi20/capi20.c:451 | in every session that keeps the window, at every moment, c + 2 buffers are free, the free list is exactly the buffers not lent, and the pool lends exactly the unanswered indications |
| PoolRuns.HandlesRestored | capi20/capi_mod_std.c:191-194 | in every such session the handle noted for an answered indication is the driver's, and no two unanswered indications share a number |
| PoolRuns.CleanupConsistent | capi20/capi20.c:549-583 | a cleanup keeps the invariant with just the connection's indications gone |
| PoolRuns.StaysFree | capi20/capi20.c:498-503 | a buffer k places from the head is not written to by the next k reads |
| PoolRuns.MessageSurvives | capi20/capi_mod_std.c:228-234 | in every session the buffer of any message other than a data indication, already free again, is not written to by the next c + 1 gets, also when the message is a DISCONNECT_IND and a cleanup follows |
| PoolRuns.IndicationSurvives | capi20/capi20.c:498-503 | the buffer of a data indication is not written to until it is answered or its connection ends |
| PoolRuns.ReachableStep | capi20/capi20.c:491-583 | every legal event leads from one moment of a session to another |
| StdModule.GetU16 | capi20/capiutils.h:115-126 | reads the little-endian number of two bytes |
| StdModule.GetU32 | capi20/capiutils.h:128-141 | reads the little-endian number of four bytes |
| StdModule.SetU16 | capi20/capiutils.h:179-183 | writes it, and no other byte |
| StdModule.PatchDataInd | capi20/capi_mod_std.c:191-225 | the overlapping move and the patches turn the indication as read into the indication as delivered, for short and long headers |
| StdModule.IndicationArrives | capi20/capi_mod_std.c:191-225 | the application decodes the NCCI, length and flags of the driver, the buffer's number as handle, and an address at which exactly the payload as read lies |
| StdModule.AnswerCarriesNumber | capi20/convert.c:399 | an encoded answer has the number at the place where it is looked for |
| StdPort.Port.GetMessage | capi20/capi_mod_std.c:176-255 | whatever the read yields and however many buffers are free: only the buffer taken is written to and holds the message, and the pool changes as the session's event says, but for the list lost when its last buffer is taken and given back |
| StdPort.Port.ProcessMessage | capi20/capi20.c:877-929 | the driver gets the message with its own handle or with the data block behind it, and the pool changes as the session's event says; a request too long for the send buffer gives the error code and changes nothing |
| StdPort.ReplyAnswers | capi20/capiutils.h:333-336 | every delivered indication, decoded and turned into a response, is an answer that can be sent and names the buffer |
| StdPort.EventByBytes | capi20/capi_mod_std.c:193-233 | bytes 4 and 5 being 0x86 0x82 or 0x04 0x82 make a data indication or the end of a connection, with handle, NCCI and PLCI at 18 and 8 |
| StdPort.PutByBytes | capi20/capi20.c:918-926 | bytes 0x86 0x83 and 0x84 0x83 make an answer with its number at 12, and the end of a logical connection with its NCCI at 8 |
| StdPort.IndicationHeader | capi20/capi_mod_std.c:189-225 | a delivered indication has the application's id, the driver's message number, and a header of at least thirty bytes |
| StdPort.AddressesApart | capi20/capi20.c:477 | the buffers of an application do not overlap |
| StdPort.LedgerStays | capi20/capi20.c:524-583 | an indication stays lent under its number until it is answered or its connection ends |
| StdPort.HandleRoundTrip | capi20/capi20.c:919-921 | in every session, however long the answer takes: the handle of the answer the driver gets is the one of its indication, through patch, decoder, encoder and the swap back |
| PortSessions.FreshInSession | capi20/capi20.c:445-482 | a new registration is the start of a session |
| PortSessions.ActReceive | capi20/capi_mod_std.c:176-255 | at every moment of a session a read finds a buffer, keeps the session, and touches no other buffer |
| PortSessions.ActSend | capi20/capi_mod_std.c:139-167 | at every moment of a session every answer the application may give can be processed, and the session goes on |
| PortSessions.Serve | capi20/capi_mod_std.c:139-255 | any number of reads and writes that keep to the protocol follow the session, and a buffer the session does not write to keeps every byte |
| PortSessions.MessageIntact | capi20/capi_mod_std.c:228-234 | the buffer of a message other than a data indication, and so everything the decoder's pointers designate, holds the same bytes until c + 1 further messages were read |
| PortSessions.IndicationIntact | capi20/capi_mod_std.c:191-225 | a delivered data indication stays as it is in its buffer while it waits, however long |
| PortSessions.AnswerIndication | capi20/capi20.c:919-921 | read, kept, decoded and answered through the code: what is handed to the driver has the handle the driver sent |
| OutgoingData.RequestIsThirtyBytes | capi20/convert.c:337 | a DATA_B3_REQ is thirty bytes: header, address, four zeros, length, handle, flags, and the data's address |
| OutgoingData.PutRequest | capi20/capi20.c:881-917 | the driver gets the request and then the block its address designates, or what stands behind it when it has none; longer than 2176 bytes it is refused with 0x1108 |
| OutgoingData.SendData | capi20/capi20.c:881-917 | the same from the fields of the message structure on, through encoder and hand-over |
| ApplIds.SharedApplIds.AllocApplid | capi20/capi20.c:369-388 | gives the lowest free id, and none exactly when all are taken |
| ApplIds.SharedApplIds.FreeApplid | capi20/capi20.c:390-406 | frees the id and finds the highest id still in use |
| ApplIds.SharedApplIds.ExitLib | capi20/capi20.c:1143-1163 | frees what the process owns and finds the highest id still in use |
| ApplIds.SharedApplIds.RememberApplid | capi20/capi20.c:358-367 | marks an id as used with the given descriptor, without touching owner, highest id or any other entry |
| ApplIds.RunKeepsLedger | capi20/capi20.c:369-406 | in every interleaving of alloc, free and exit the table says exactly who holds what and max_id is the highest id in use |
| ApplIds.IdsNotShared | capi20/capi20.c:369-388 | in every interleaving an id handed out is held by nobody and is the lowest such; none is handed out only when 1 to 1023 are all held |
| ApplIds.ExitFreesOwn | capi20/capi20.c:1143-1163 | in every interleaving a leaving process frees exactly its own ids |
| ApplIds.RememberKeepsMaxId | capi20/capi20.c:358-367 | the highest id is right afterwards exactly when the noted id is not above it |
| FaxSender.CutLosesNothing | capifax/capifax.c:221-230 | the blocks of a file concatenate to the file |
| FaxSender.CutBlocks | capifax/capifax.c:221-230 | block i has the 2048 bytes from 2048 * i on, or what is left of them, and the handle i modulo 8 |
| FaxSender.Sender.InitQueue | capifax/capifax.c:143-151 | an empty ring with no block marked as sent |
| FaxSender.PutKeeps | capifax/capifax.c:218-231 | a block put at the head overwrites no block that waits, and the sent ones stay a prefix of the window |
| FaxSender.ConfirmKeeps | capifax/capifax.c:90-93 | dropping the tail keeps the window and its marks |
| FaxSender.Sender.TransferData | capifax/capifax.c:153-176 | sends the unsent blocks in file order, each once, up to the first that is refused |
| FaxSender.Sender.MainDataConf | capifax/capifax.c:81-95 | the handle of the controller's oldest unconfirmed block is the tail, which leaves the ring; a confirmation with an error changes nothing |
| FaxSender.Sender.OnlyOldestIsTail | capifax/capifax.c:86-89 | a confirmation names the tail exactly when none before it was dropped for its error |
| FaxSender.Sender.Pass | capifax/capifax.c:214-239 | one pass keeps the ring equal to the file read so far, and a smooth pass leaves nothing unsent |
| FaxSender.Sender.SendFax | capifax/capifax.c:178-239 | in every run the controller has got a beginning of the file in blocks whose handles count around the ring, at most seven unconfirmed; a run to the end of the file whose last pass is smooth has sent its blocks once and in order, which is the whole file exactly when it is empty or longer than four bytes; prompt confirmations bring it there in one pass more than the file has full blocks |
| Connections.ConnectionTable.AllocConnection | capifax/id.c:79-100 | takes the first free entry and resets it |
| Connections.ConnectionTable.GetConnectionByPLCI | capifax/id.c:154-162 | the first entry in use with the PLCI |
| Connections.ConnectionTable.GetConnectionByNCCI | capifax/id.c:188-196 | the first entry in use with the NCCI |
| Connections.LookupsAgree | capifax/id.c:154-196 | in every table the handlers lead to, lookup by PLCI finds exactly the open calls, lookup by NCCI exactly their logical connections, and an NCCI and its low word name the same entry |
| Connections.FreeUnlessFull | capifax/id.c:79-100 | an entry can be had exactly when calls and unanswered requests do not fill the table |
| Connections.EntryChanged | capifax/id.c:132-172 | a change of one entry that fits the controller's change keeps the table its image, without two entries for a call |
| Connections.ConnectionTable.Connect | capifax/connect.c:83-136 | an outgoing call gets a message number no other unanswered request has, exactly when there is room and the library takes the request |
| Connections.ConnectionTable.HandleConnectInd | capifax/capi.c:71-109 | a call that is not known gets an entry of its own, or is rejected exactly when the table is full |
| Connections.ConnectionTable.HandleIndication | capifax/capi.c:67-147 | every indication of a controller that keeps to the protocol finds its entry and changes the call it names and no other; what is answered follows from what was said before |
| Connections.ConnectionTable.HandleConfirmation | capifax/capi.c:176-250 | the same for confirmations, errors included; a failed CONNECT_B3_REQ is answered by clearing the call |
| Connections.ConnectionTable.EntryIsHistory | capifax/capi.c:67-250 | at every moment an entry holds the NCCI last given to its call, the state the last message left it in, and whether it is our turn |
| Calls.WorldIsHistory | capifax/capi.c:67-250 | in every run the open calls are those opened and not ended; each has the state of the last message about it: pending after CONNECT_IND and CONNECT_CONF, connected after CONNECT_ACTIVE_IND and DISCONNECT_B3_IND, and so on |
| Calls.Activation | capifax/capi.c:110-116 | in every run the activation of a call that was opened by CONNECT_REQ is answered by one CONNECT_B3_REQ for it, that of an incoming call by none |
| Calls.Clearing | capifax/capi.c:129-138 | in every run the end of a logical connection that was up clears the call by DISCONNECT_REQ exactly on the side that asked to clear |
| Calls.AnswersFollow | capifax/capi.c:71-138 | every answer to an indication is told by the history; a call is rejected exactly when it is not known and eight connections stand |
| Calls.IndicatedSound | capifax/capi.c:110-138 | a call's logical connection has the call's PLCI as low word, and a connected call has one |
| Calls.ConfirmedSound | capifax/capi.c:229-250 | the same after confirmations |
| FirmwareLayout.BitIsSet | eicon/eiconctrl.c:367-399 | the mask test holds exactly for bytes that are hi * 2^(k+1) + 2^k + lo with lo < 2^k |
| FirmwareLayout.RequiredAreSelected | eicon/eiconctrl.c:379-540 | the downloads taken are those whose mask has the card's bit, in file order |
| FirmwareLayout.SelectedExactly | eicon/eiconctrl.c:399 | a download is among them if and only if its mask has the bit |
| FirmwareLayout.FirstOfTwo | eicon/eiconctrl.c:379-540 | of two downloads with a set and a clear bit the first alone is taken |
| FirmwareLayout.HeaderRead | eicon/eiconctrl.c:413-420 | each size used is the one the header has under its name |
| FirmwareLayout.DescriptorFields | eicon/eiconctrl.c:427-437 | each entry of the table has what the header has under the same name |
| FirmwareLayout.DownloadRead | eicon/eiconctrl.c:423-540 | a download laid out field by field is read section by section, and the next one is found behind it |
| FirmwareLayout.BaseAddress | eicon/eiconctrl.c:317 | sections begin at the first multiple of four behind the table and its length |
| FirmwareLayout.ReadInPlace | eicon/eiconctrl.c:423-453 | a section is read from its place in the file exactly when the header has its usual size |
| FirmwareLayout.LongHeaderMisread | eicon/eiconctrl.c:423-453 | a readable file with a longer header for which another byte than the description is stored |
| FirmwareLayout.SectionsCopied | eicon/eiconctrl.c:423-522 | with such a header the stored sections are the file's |
| FirmwareLayout.BlockSuffices | eicon/eiconctrl.c:680-681 | what the second pass writes is at most 21 bytes a download more than the first pass measured, so it fits the block |
| FirmwareLayout.SectionInPlace | eicon/eiconctrl.c:302-347 | each section lies in the block at its offset, and less than four zeros follow it |
| FirmwareLayout.PointerRight | eicon/eiconctrl.c:446-522 | every pointer of the table is aligned, as far from the base as its section from the start of the block, and the section is there |
| FirmwareLayout.PointersApart | eicon/eiconctrl.c:446-522 | no two sections overlap |
| FirmwareLayout.FitsThirtyTwoBits | eicon/eiconctrl.c:317-327 | with at most 35 downloads neither the length nor an address leaves 32 bits |
| FirmwareLayout.Loader.StoreDownload | eicon/eiconctrl.c:302-347 | appends the padded section to the block and gives its address |
| FirmwareLayout.Loader.GetDownload | eicon/eiconctrl.c:351-547 | both passes visit the same downloads, those with the card's bit: the first gives their length, the second writes the image of their sections and the table that describes it; they are those whose mask byte has the bit, in file order |
| FirmwareLayout.Loader.LoadDownloads | eicon/eiconctrl.c:667-697 | the two passes together stay inside the block allocated between them and fail exactly when no download with the card's bit has a section that is not empty; the table describes just those with the bit, field by field |

## Left out

- Sockets, devices, files, select, module loading and configuration: foreign calls. A read is a
  parameter, a write is the bytes that leave; other modules than the standard one are not modelled.
- Semaphores and shared memory: every locked region is one step.
- Big-endian machines, 32-bit pointers, the CP850 translation and the shorter descriptors of the
  second library version: branches of configuration.
- The trace printer of convert.c, the message fill functions, the string tables: formatting.
- The area-code file's header and the step from the code's index to the offset of its info string.
- Table sizes of 4 GB and more: the file's 32-bit offsets do not reach them.
- LoadShortcut, LoadString: shortcut byte 0x1F, which the test at `areacode/areacode.c:222` accepts
  although the table ends at 30, and shortcut tables with a cycle, on which the expansion does not end.
- Struct pointers in a decoded message are modelled as the bytes they point at; that those bytes
  stay is the theorem about buffers.
- ParsToMessage, Cmsg2Message: messages of 65536 bytes and more, whose length wraps in the 16-bit header field.
- MessageToPars, Message2Cmsg: messages that end before their parameters do; the source reads on behind them.
- The buffers of an application are separate arrays here, one region cut into pieces in the source;
  a data indication must fit its buffer with the long header, as the driver's block size provides.
- Port.GetMessage: reads of fewer than the six bytes the code looks at, where it sees what an earlier
  message left behind.
- Port.ProcessMessage: answers to a pool without a free buffer, which the window rule excludes (ActSend),
  and what the caller makes of the error code it takes for a length.
- CleanupBuffers: in a broken pool, the cleanups in which the source's assertion about a returned
  buffer's link fails.
- HandleRoundTrip: pools of more than 65536 buffers, whose numbers do not fit the handle.
- RunKeepsLedger: ids noted by RememberApplid, which have no owner; RememberKeepsMaxId covers those.
- SendFax: runs in which the controller reports an error for a block. The source drops the
  confirmation although the block stays in the ring; by OnlyOldestIsTail the next one then fails the
  source's assertion.
- Call set-up and tear-down around the fax sender's loop, and the contents of slots that hold no block.
- HandleIndication: the end of a call the table does not know, where the source sets a reason before
  it looks whether the entry exists; party numbers, NCPI, reasons and the user's callbacks.
- Activation: calls whose logical connection was up before they are activated once more; for these the
  answer follows from who asked to clear it last (AnswersFollow).
- GetDownload, LoadDownloads: downloads that reach beyond the file, more than 35 of them, and a second run in one
  process, all of which the source leaves unchecked; the verbose listing of descriptions.
