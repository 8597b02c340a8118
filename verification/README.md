# FreeRDP client protocols in Dafny

This project models the parts of FreeRDP in which state, branching or arithmetic carry the
behaviour, and proves what they promise over all inputs and all runs: the clipboard
redirection of the X11 and the Wayland client, the throttling of display resizes, the
reassembly and dispatch of virtual channel messages, the codecs of the touch input and
clipboard channels, the Huffman index generators, and the splitting of wheel events.

Each component is modelled twice. A value-level step function or codec is the object of the
theorems, which are about whole runs, interleavings or byte streams. Beside it stands the
code's own form, a class or a method with loops, whose contract equates what it does with
that function. The modules:

| module | what it models |
|---|---|
| `WinprStream` | the byte stream of WinPR: doubling growth, little-endian fields |
| `RingQueue` | the wrapping, growing queue of WinPR |
| `ClipboardFormats` | the format record shared by the clipboard modules |
| `Rdpei` | the variable-length integers of MS-RDPEI, sections 2.2.2.1 to 2.2.2.5 |
| `FormatList` | the format list PDU of MS-RDPECLIP, sections 2.2.3.1.1 and 2.2.3.1.2 |
| `RawFormats` | the format list one X11 client leaves for another |
| `HuffmanIndex` | the two-level, XOR-tagged hash index of the Huffman table generators |
| `ChannelReassembly` | chunks to messages, flags of MS-RDPBCGR, section 2.2.6.1.1 |
| `ChannelWorker` | the worker thread against the direct mode |
| `ResizeThrottle` | the 200 ms throttle and its one-shot timer, in both clients |
| `WaylandPaste` | matching replies to paste requests through a queue |
| `X11Paste` | the postponed selection reply and the two caches |
| `X11Copy` | answering the server, with INCR transfers (ICCCM, section 2.7.2) |
| `Announce` | the announced format list and the detection of changes |
| `Wheel` | wheel events with 9 bits of rotation, MS-RDPBCGR, section 2.2.8.1.1.3.1.1.3 |

What comes from outside is a parameter: the clock readings of a handler, whether a send or a
conversion works, the format conversions themselves, the properties read from the X server,
and the order in which threads and the network take their steps. Allocation, hash table
insertion and X calls are taken to succeed, except where an event says otherwise. Integers are
unbounded in Dafny; where the C code truncates, wraps or relies on 32 bits, the model says so.

Where the code does something else than its names, comments or documents suggest, the model
follows the code, and a lemma says exactly when the two agree:

- 8-byte integers lose bits 5 to 7 of the middle bytes; `Rdpei.RoundTripExact` says which
  values survive, `Rdpei.FirstLossyValue` gives the smallest that does not. The minimum of the
  signed formats is written as a negative zero (for 32 bits its negation is undefined in C and
  is taken to wrap around).
- Long format names cannot be combined with ASCII names although the writer announces that it
  ignores the flag: `FormatList.AsciiIsIgnoredExactly`.
- A message longer than announced can be delivered, since only the doubled capacity is
  compared: `ChannelReassembly.DeliveredExactly`, `ChannelReassembly.LongMessageCanPass`.
- A paste request that could not be sent stays queued in the Wayland client and shifts all
  later replies: `WaylandPaste.RepliesMatch` is an equivalence, `WaylandPaste.FailedSendShifts` a run.
- A message that was not delivered is left behind, and spoils the next one: `ChannelReassembly.NextIsSpoiled`.
- In the X11 client a format list that arrives while a request waits lets a stale reply answer
  a later request: `X11Paste.RepliesAreOwnExactly` counts over every run, `X11Paste.StaleReplyIsTaken`
  is such a run. It does not notice that a request was not sent: until a format list comes, or a
  stale reply, everything that is not cached is refused (`X11Paste.UnsentBlocks`).
- A paste of image/tiff in the X11 client can ask for a bitmap under the target of CF_TIFF:
  `X11Paste.RoutesAgree` says exactly when request and reply differ, `X11Paste.TiffFromBitmap` how.
- The Wayland client asks for CF_TIFF but never decodes it, and asks for format 0 when files or HTML
  are not listed: `WaylandPaste.TiffIsNotDecoded`, `WaylandPaste.UnlistedIsNotDecoded`.
- Raw transfers are cached under keys they are not looked up with: `X11Paste.RawIsNeverCached`.
- A change of the announced formats can go unnoticed exactly when the last list had a
  duplicate: `Announce.UnchangedExactly`.
- The X11 client spaces the dates it records, not the sends themselves
  (`ResizeThrottle.X11SendsCanBeClose`). The next send is 200 ms after the last exactly when that is
  no later than the earliest instant at which the client can send
  (`ResizeThrottle.NextSendIsSpacedExactly`); without a timer, exactly when the last send went out at
  its date or is 200 ms old (`ResizeThrottle.NextSendIsSpaced`).
- A resize is lost exactly when its send fails or its timer fires on a closed channel:
  `ResizeThrottle.KeptUnlessDropped`, with a run for each; `ResizeThrottle.LostUntil` says exactly what
  takes it up again, which in the X11 client the same size does not.

## Model

| member | source | states |
|---|---|---|
| `WinprStream.Stream.EnsureCapacity` | winpr/libwinpr/utils/stream.c:44-85 | The capacity becomes the smallest doubling that holds the size; the contents and the position stay; the length follows the capacity if it grew. |
| `WinprStream.Stream.EnsureRemainingCapacity` | winpr/libwinpr/utils/stream.c:87-92 | There is room for n more bytes behind the position, what was written is unchanged, and the length follows the capacity if it grew. |
| `WinprStream.DoubledExactly` | winpr/libwinpr/utils/stream.c:44-85 | The new capacity is the old one doubled the fewest times that give the size. |
| `WinprStream.ReservedExactly` | winpr/libwinpr/utils/stream.c:87-92 | A buffer is left alone exactly if the bytes fit behind the position; otherwise it is doubled the fewest times that let them fit behind its old end. |
| `WinprStream.LittleEndianBytes` | winpr/include/winpr/endian.h:257-263 | The value is the sum of its four bytes, the lowest first. |
| `RingQueue.GrownUnrolled` | winpr/libwinpr/utils/collections/Queue.c:162-192 | Doubling a wrapped or unwrapped ring keeps the queued items and their order. |
| `RingQueue.Queue.EnsureCapacity` | winpr/libwinpr/utils/collections/Queue.c:162-192 | The queue is unchanged, and one more item leaves a free place; the ring is doubled exactly if it did not before. |
| `RingQueue.Queue.Enqueue` | winpr/libwinpr/utils/collections/Queue.c:198-231 | The item becomes the last of the queue, through wrapping and growing. |
| `RingQueue.Queue.Dequeue` | winpr/libwinpr/utils/collections/Queue.c:237-257 | The oldest item is taken off, or there is none and nothing changes. |
| `Rdpei.RoundTrip` | channels/rdpei/rdpei_common.c:33-611 | Reading what a writer wrote, with anything behind it, gives the stored value and consumes exactly the bytes written, in all five formats. |
| `Rdpei.RoundTripExact` | channels/rdpei/rdpei_common.c:33-611 | The value itself comes back if and only if it is not the signed minimum and, for 8-byte values, none of its bytes 3 up to below the lead has one of the upper three bits set. |
| `Rdpei.KeptDigits` | channels/rdpei/rdpei_common.c:383-611 | Which digits of an 8-byte value are kept: bytes from the third on lose the bits above the fifth, all others stay. |
| `Rdpei.StreamRoundTrip` | channels/rdpei/rdpei_common.c:33-611 | Any sequence of accepted values of any formats reads back as stored, and what follows is untouched. |
| `Rdpei.StreamExact` | channels/rdpei/rdpei_common.c:33-611 | The sequence comes back as written if and only if each value in it survives. |
| `Rdpei.AcceptedExactly` | channels/rdpei/rdpei_common.c:60-611 | For each of the five formats, the values its writer accepts: an interval, and the minimum of the signed ones. |
| `Rdpei.BytesUsed` | channels/rdpei/rdpei_common.c:60-611 | How many bytes each accepted value takes, in each format. |
| `Rdpei.DecodeExactly` | channels/rdpei/rdpei_common.c:33-493 | What any bytes read as, in each format: the count, the sign and the big-endian number, or where the input is too short. |
| `Rdpei.SurvivesUpTo29Bits` | channels/rdpei/rdpei_common.c:33-536 | All accepted values but the signed minimum survive, and 8-byte values up to 0x1FFFFFFF do. |
| `Rdpei.FirstLossyValue` | channels/rdpei/rdpei_common.c:428-547 | 0x20000000, the next value after those that always survive, reads back as 0. |
| `Rdpei.MinimumIsLost` | channels/rdpei/rdpei_common.c:117-156 | The signed 16-bit minimum is accepted, and reads back as 0. |
| `Rdpei.Write2ByteUnsigned` | channels/rdpei/rdpei_common.c:60-84 | Writes the encoding, or nothing and fails for values that do not fit, within the two bytes reserved. |
| `Rdpei.Write2ByteSigned` | channels/rdpei/rdpei_common.c:117-156 | Writes the encoding or fails, within the two bytes reserved, with 16-bit wrap-around of the minimum. |
| `Rdpei.Write4ByteUnsigned` | channels/rdpei/rdpei_common.c:210-254 | Writes the encoding or fails, within the four bytes reserved. |
| `Rdpei.Write4ByteSigned` | channels/rdpei/rdpei_common.c:313-381 | Writes the encoding or fails, within the four bytes reserved. |
| `Rdpei.Write8ByteUnsigned` | channels/rdpei/rdpei_common.c:495-611 | Writes the encoding, with its masked middle bytes, or fails, within the eight bytes reserved. |
| `Rdpei.Read2ByteUnsigned` | channels/rdpei/rdpei_common.c:33-58 | Decodes what is left of the stream and moves by what it consumed, on short input too. |
| `Rdpei.Read2ByteSigned` | channels/rdpei/rdpei_common.c:86-115 | The same for signed 2-byte values. |
| `Rdpei.Read4ByteUnsigned` | channels/rdpei/rdpei_common.c:158-208 | The same for unsigned 4-byte values. |
| `Rdpei.Read4ByteSigned` | channels/rdpei/rdpei_common.c:256-311 | The same for signed 4-byte values. |
| `Rdpei.Read8ByteUnsigned` | channels/rdpei/rdpei_common.c:383-493 | The same for 8-byte values of up to eight bytes. |
| `FormatList.RoundTrip` | channels/cliprdr/cliprdr_common.c:241-547 | Every list with 7-bit names reads back in order, with its ids: long names whole, short ones their first 31 (ASCII) or 15 (Unicode) characters, empty names as none. |
| `FormatList.EntryLayout` | channels/cliprdr/cliprdr_common.c:262-305 | Byte by byte, an entry with a 7-bit name: the id, then the name with zeros behind it, in 32 bytes or as long as it is. |
| `FormatList.ShortAccepted` | channels/cliprdr/cliprdr_common.c:399-479 | A short list, ASCII or Unicode, is accepted if and only if its length is 0, or at least 36 with fewer than 4 bytes over and the names of its entries convert, which ASCII names always do; the number of formats is the length divided by 36. |
| `FormatList.CodesExactly` | channels/cliprdr/cliprdr_common.c:399-424 | Which inputs give the code for invalid data, which the one for no memory; the empty list is accepted. |
| `FormatList.AsciiNameExactly` | channels/cliprdr/cliprdr_common.c:453-466 | A short ASCII name is what lies before the first zero byte, 31 bytes at most; none if that is empty. |
| `FormatList.UnicodeNameExactly` | channels/cliprdr/cliprdr_common.c:467-475 | A short Unicode name is converted from the characters before the first zero character, 16 at most; none if there are none. |
| `FormatList.PassesAgree` | channels/cliprdr/cliprdr_common.c:480-542 | If the counting pass goes through, the reading pass fails if and only if the name of some entry does not convert, and otherwise reads as many formats as were counted. |
| `FormatList.LongAccepted` | channels/cliprdr/cliprdr_common.c:480-542 | A long list is accepted if and only if it is there, ends with a whole entry, and the names of its entries convert. |
| `FormatList.AsciiIsIgnoredExactly` | channels/cliprdr/cliprdr_common.c:249-302 | With long names, asking for ASCII changes nothing if and only if no format has a name. |
| `FormatList.WriteFormatList` | channels/cliprdr/cliprdr_common.c:241-310 | The stream holds the header and the entries in order, within the room reserved for each; it fails exactly when a name does not convert. |
| `FormatList.ReadShortEntries` | channels/cliprdr/cliprdr_common.c:407-479 | Reads exactly the 36-byte entries of the list, failing on an incomplete one and on a name that does not convert. |
| `FormatList.CountLongEntries` | channels/cliprdr/cliprdr_common.c:485-498 | Counts the complete entries and says whether the list ends with one. |
| `FormatList.ReadLongEntries` | channels/cliprdr/cliprdr_common.c:511-539 | On a counted list there is always a place for the next format, and as many are read as were counted. |
| `FormatList.ReadFormatList` | channels/cliprdr/cliprdr_common.c:381-565 | The code and the formats for every input; the count left behind after an error, which is not zero when counting failed. |
| `RawFormats.RoundTrip` | client/X11/xf_cliprdr.c:497-605 | A serialised list reads back, missing names as empty ones, if and only if it has at most 255 formats; what follows is ignored. |
| `RawFormats.Layout` | client/X11/xf_cliprdr.c:497-541 | The count; then the id, the name and a zero byte of each format in turn. |
| `RawFormats.ParsedExactly` | client/X11/xf_cliprdr.c:543-605 | Bytes are read as a list if and only if they start with that list serialised. |
| `RawFormats.ServerListArrives` | client/X11/xf_cliprdr.c:497-605 | A server list with the synthetic format behind it is read by the other client as it came from the server, if and only if it has at most 255 formats. |
| `RawFormats.Serialise` | client/X11/xf_cliprdr.c:497-541 | Writes the count and the entries of all formats but the last, growing the stream as needed. |
| `RawFormats.Parse` | client/X11/xf_cliprdr.c:543-605 | Reads the list or fails: too short, too many, no terminating zero. |
| `HuffmanIndex.BuildHashTable` | scripts/LOMHash.c:25-44 | For every code table with at most two codes a bucket, distinguishing tags and spare slots of their own, the array becomes the index of the codes. |
| `HuffmanIndex.GetValue` | scripts/LOMHash.c:46-56 | Reads the index: the tag test decides between the bucket and the spare slot; no answer for keys that hash behind the table. |
| `HuffmanIndex.LomHashBits` | scripts/LOMHash.c:14-17 | Every bit of the hash is the sum, modulo 2, of three bits of the key. |
| `HuffmanIndex.LecHashBits` | scripts/LECHash.c:36-41 | Every bit of the hash is the sum, modulo 2, of four bits of the key. |
| `HuffmanIndex.LecSpareExactly` | scripts/LECHash.c:34-52 | Which spare slot a key has, from four sums of two of its bits; and for which keys the code reads behind the slots. |
| `HuffmanIndex.LookupDecides` | scripts/LOMHash.c:46-56 | For every table and key: the bits above the index, equal or not, decide between the spare slot and the index bits of the bucket; a LOM position is cut to a byte. |
| `HuffmanIndex.LookupFindsPosition` | scripts/LECHash.c:36-81 | In every such index, of 5 or of 9 index bits, each code is looked up at its own position. |
| `HuffmanIndex.LomIsIndexable` | scripts/LOMHash.c:4-23 | The 32 codes of the LOM table meet the hypotheses. |
| `HuffmanIndex.LomIndexExactly` | scripts/LOMHash.c:25-70 | The 32 words that the builder makes of the LOM table, and no others. |
| `HuffmanIndex.CheckLom` | scripts/LOMHash.c:58-77 | The generator ends with those words, and its self-check never fails. |
| `ChannelReassembly.Receiver.PostChunk` | channels/client/addin.c:652-708 | One call changes the partial message, delivers and returns what the specification of a chunk says, including the error exits. |
| `ChannelReassembly.ReceiveExactly` | channels/client/addin.c:652-708 | For every partial message and chunk: the return code, what is delivered, and the bytes and the capacity of the partial message left. |
| `ChannelReassembly.ControlIsIgnored` | channels/client/addin.c:664-667 | Suspend and resume chunks can be left out of any stream of chunks. |
| `ChannelReassembly.MessageArrives` | channels/client/addin.c:669-708 | A non-empty message cut anywhere arrives whole and leaves nothing behind. |
| `ChannelReassembly.MessagesArrive` | channels/client/addin.c:664-729 | Any messages, cut anywhere, with control chunks between, are delivered as exactly those messages in order. |
| `ChannelReassembly.DeliveredExactly` | channels/client/addin.c:669-708 | Under any announced total: none is delivered if it is 0; otherwise a message is delivered if and only if it fills the stream, whose capacity is the total doubled some number of times; not doubled if the message is not longer. |
| `ChannelReassembly.ShortMessageStays` | channels/client/addin.c:695-704 | A message shorter than announced is not delivered and stays as the partial message. |
| `ChannelReassembly.NextIsSpoiled` | channels/client/addin.c:669-706 | Behind a message that was not delivered the next one is delivered, with the old bytes in front, if and only if both together fill the stream. |
| `ChannelReassembly.LongMessageCanPass` | channels/client/addin.c:686-706 | Twice the announced length gets through. |
| `ChannelWorker.InvRun` | channels/client/addin.c:530-579 | In every state of every interleaving, posted messages are handled, in hand or queued, in order, and the quit item is last. |
| `ChannelWorker.DirectExactly` | channels/client/addin.c:715-729 | Direct mode handles the posted messages in order, up to and including the first that fails. |
| `ChannelWorker.HandledAsDirect` | channels/client/addin.c:539-567 | What is handled is a beginning of what was posted and of what the direct mode handles up to its first error; all of that once the worker ended. |
| `ChannelWorker.QuitDrains` | channels/client/addin.c:732-762 | When quit returns, everything posted was handled, up to the first error. |
| `ChannelWorker.PostedExactly` | channels/client/addin.c:715-743 | In every state of every interleaving, the messages accepted are all those posted before the quit. |
| `ChannelWorker.PostedIsHandled` | channels/client/addin.c:715-762 | When quit returns, the messages posted before it have been handled, up to the first error. |
| `ChannelWorker.NothingAfterQuit` | channels/client/addin.c:745-761 | After quit returned nothing happens any more. |
| `ChannelWorker.QuitComesBack` | channels/client/addin.c:745-761 | While quit waits, a step is possible, and every step but a rejected post brings its return nearer. |
| `ChannelWorker.SentIsHandled` | channels/client/addin.c:652-762 | From chunks to handler: the messages that were cut and sent are handled as in direct mode. |
| `ChannelWorker.ThreadProc` | channels/client/addin.c:530-567 | On any queue the loop handles what lies before the quit item, up to and including the first message that fails, and says whether it ended, failed or waits for more; what it does is a stretch of a run of the state machine. |
| `ResizeThrottle.StepKeepsInv` | client/X11/xf_disp.c:130-235 | Every event of either client keeps the sends 200 ms apart and a pending timer between 200 ms after the last send and 200 ms from now. |
| `ResizeThrottle.SendsAreSpaced` | client/X11/xf_disp.c:164-226 | In every run, between a send and the n-th after it lie at least n times 200 ms, by the recorded dates (X11) or by the sends themselves (Wayland). |
| `ResizeThrottle.NextSendIsSpacedExactly` | client/X11/xf_disp.c:180-217 | From every state of the X11 client, in every continuation the next PDU is 200 ms after a given one if and only if that is no later than the earliest instant the client can send. |
| `ResizeThrottle.NextSendIsSpaced` | client/X11/xf_disp.c:180-217 | Without a timer: the next PDU is 200 ms after the last one in every continuation, if and only if that went out at its date or is 200 ms old. |
| `ResizeThrottle.PromptSendsAreSpaced` | client/X11/xf_disp.c:164-226 | In every run in which each PDU goes out at its date, the n-th after a PDU is at least n times 200 ms later, in both clients. |
| `ResizeThrottle.FireIsNotEarly` | client/Wayland/wlf_disp.c:113-130 | On an active client a firing timer is gone and never throttled: on an open channel, if the send works, the target and the settings are the ones sent last, by a new PDU exactly if one of them is new; otherwise nothing is sent. |
| `ResizeThrottle.FireWaits` | client/X11/xf_disp.c:130-149 | Before activation, or in fullscreen in the Wayland client, a firing timer only starts again. |
| `ResizeThrottle.SentAtOnceExactly` | client/X11/xf_disp.c:164-235 | A new size or another reason to look sends at once if and only if no timer runs, the client is active, the channel open, the last send 200 ms old and something new; with the dates and sizes noted then and otherwise. |
| `ResizeThrottle.TimerStartsExactly` | client/X11/xf_disp.c:151-191 | It starts a timer, and of which length, if and only if none runs and the client is not active, the channel not open, or the last send not 200 ms old. |
| `ResizeThrottle.KeptUnlessDropped` | client/X11/xf_disp.c:164-235 | A step leaves an unsent size without a timer if and only if its send failed or its timer fired on a closed channel. |
| `ResizeThrottle.LostUntil` | client/X11/xf_disp.c:228-235 | A size that is lost gets a timer again or is sent if and only if there is a reason to look and its send is not due or does not fail, or the window has the size sent last; the same size again is no reason in the X11 client. |
| `ResizeThrottle.ClosedChannelLosesResize` | client/X11/xf_disp.c:144-146 | A run of each client in which a size waits for its timer, the channel closes, the timer fires, and the size is lost. |
| `ResizeThrottle.FailedSendLosesResize` | client/Wayland/wlf_disp.c:170-200 | A run of each client on an open channel in which a send fails and nothing is left to try again. |
| `ResizeThrottle.ResizesAreSent` | client/Wayland/wlf_disp.c:113-201 | In every run without those two, an unsent size has a timer due within 200 ms, and when it runs on an active, open channel the size is sent. |
| `ResizeThrottle.X11SendsCanBeClose` | client/X11/xf_disp.c:193-217 | A run in which two PDUs of the X11 client are less than 200 ms apart, because the date is taken before a slow send. |
| `ResizeThrottle.XfDisp.SendResize` | client/X11/xf_disp.c:164-226 | Skips, starts a timer for the rest of the 200 ms, or sends; false exactly when a send failed. |
| `ResizeThrottle.XfDisp.UpdateTimer` | client/X11/xf_disp.c:151-162 | Starts a timer unless one runs, and changes nothing else. |
| `ResizeThrottle.XfDisp.QueueResize` | client/X11/xf_disp.c:228-235 | An unchanged target does nothing; a new one is noted and an attempt is made; false exactly when that attempt's send failed. |
| `ResizeThrottle.XfDisp.OnTimer` | client/X11/xf_disp.c:130-149 | Before activation the timer is started again; afterwards an attempt is made and the timer is gone. |
| `ResizeThrottle.WlfDisp.SendResize` | client/Wayland/wlf_disp.c:145-201 | With its checks in another order, the same decision; it always waits the full 200 ms and dates the send afterwards. |
| `ResizeThrottle.WlfDisp.UpdateTimer` | client/Wayland/wlf_disp.c:132-143 | Starts a timer unless one runs, and changes nothing else. |
| `ResizeThrottle.WlfDisp.HandleConfigure` | client/Wayland/wlf_disp.c:389-397 | The target is noted and an attempt is made; false exactly when its send failed. |
| `ResizeThrottle.WlfDisp.OnTimer` | client/Wayland/wlf_disp.c:113-130 | Before activation or in fullscreen the timer is started again; otherwise an attempt is made and the timer is gone. |
| `WaylandPaste.StepKeepsInv` | client/Wayland/wlf_cliprdr.c:321-334 | Every step of client, wire and server keeps: taken and queued requests are those queued, in order, and those that reached the wire are answered, in flight or at the server, in order. |
| `WaylandPaste.QueueIsInFlight` | client/Wayland/wlf_cliprdr.c:525-570 | While sends work, the queue is the replies in flight, the requests at the server, those on their way, and at most the one being sent under the lock. |
| `WaylandPaste.RepliesMatch` | client/Wayland/wlf_cliprdr.c:827-854 | In every interleaving no reply finds the queue empty, and the k-th is handled with its own request if and only if no request queued up to and including the k-th failed to be sent. |
| `WaylandPaste.FailedSendShifts` | client/Wayland/wlf_cliprdr.c:321-334 | For any two requests, a run in which the first fails to be sent and the reply to the second is handled with the first. |
| `WaylandPaste.WantedExactly` | client/Wayland/wlf_cliprdr.c:525-570 | A MIME type is asked for if and only if it is one of text, HTML, files or images, under text/plain for text and its own name otherwise. |
| `WaylandPaste.IdOfFirst` | client/Wayland/wlf_cliprdr.c:496-510 | A named format is asked for by the id of the first entry with its name. |
| `WaylandPaste.PasteIsDecoded` | client/Wayland/wlf_cliprdr.c:862-900 | With an unchanged list, text is asked for as CF_UNICODETEXT and bitmaps as CF_DIB, and both are decoded from that; files and HTML by the id of their name, and decoded as what they are if and only if that id is not a standard one and first stands for them in the list, which without repeated ids means that they are listed. |
| `WaylandPaste.StandardExactly` | client/Wayland/wlf_cliprdr.c:862-876 | The formats decoded by their id are CF_TEXT, CF_OEMTEXT, CF_UNICODETEXT, CF_DIB and CF_DIBV5, for every list. |
| `WaylandPaste.TiffIsNotDecoded` | client/Wayland/wlf_cliprdr.c:548-555 | For every list, an image/tiff paste asks for CF_TIFF and is never decoded from it: raw, or by name exactly when that id first stands for files or HTML. |
| `WaylandPaste.UnlistedIsNotDecoded` | client/Wayland/wlf_cliprdr.c:496-510 | For every list, files or HTML that are not in it are asked for as format 0 and never decoded as what they are: raw, or as the other of the two exactly when the id 0 first stands for that. |
| `WaylandPaste.NamedSource` | client/Wayland/wlf_cliprdr.c:877-898 | For every list, a reply outside the standard text and bitmap formats is decoded by name if and only if the first entry with its id has that name, of files or HTML; raw otherwise. |
| `WaylandPaste.Clipboard.SendDataRequest` | client/Wayland/wlf_cliprdr.c:321-334 | The request is queued, and stays queued even if it is not sent; in the protocol, a request begun and then sent or failed. |
| `WaylandPaste.Clipboard.TransferData` | client/Wayland/wlf_cliprdr.c:525-570 | A known MIME type with a usable file is queued and sent with its format, as the protocol's steps say; anything else changes nothing. |
| `WaylandPaste.Clipboard.FormatDataResponse` | client/Wayland/wlf_cliprdr.c:827-927 | A reply goes to the oldest request: its file gets the converted data, or nothing on failure; without a request it is an error; in the protocol, the delivery of the reply. |
| `X11Paste.StepKeepsInv` | client/X11/xf_cliprdr.c:1487-1648 | Every event keeps: a waiting request has its format noted, every cached conversion is one of data received since the caches were last cleared, and every request was answered once, dropped once or waits. |
| `X11Paste.RunKeepsCut` | client/X11/xf_cliprdr.c:1382-1424 | In every run over the table of targets, each cached conversion, and that of the waiting request, is cut at its first zero exactly if it comes from text, HTML or a file list. |
| `X11Paste.NothingIsLeft` | client/X11/xf_cliprdr.c:1334-1348 | After a format list of the server, or an announcement of local formats, nothing is found for any request. |
| `X11Paste.AnsweredAtMostOnce` | client/X11/xf_cliprdr.c:1601-1645 | In every run, no request is answered twice, none that waits or was dropped is answered, and every other one is. |
| `X11Paste.RequestExactly` | client/X11/xf_cliprdr.c:1507-1645 | For every state and request: ignored, refused, answered with the data found, or the format that the server is asked for. |
| `X11Paste.PasteGetsData` | client/X11/xf_cliprdr.c:1361-1424 | A paste asks for the announced format, and is answered with the conversion of the reply, from the format asked for, HTML or the file list to that of the target, cut at its first zero where it is text. |
| `X11Paste.RawPasteGetsData` | client/X11/xf_cliprdr.c:2192-2354 | A raw paste asks for the format it names, and gets the data as they are. |
| `X11Paste.DroppedExactly` | client/X11/xf_cliprdr.c:2157-2199 | A failure or a reply without data drops the waiting request without an answer, and a format list does and forgets its format; a reply nobody waits for changes nothing. |
| `X11Paste.FoundIsFresh` | client/X11/xf_cliprdr.c:1334-1485 | In every run, data given without asking the server is the conversion of the data of a reply, taken for its source format, since which no format list came or went; cut at its first zero exactly if its source is text, HTML or a file list. |
| `X11Paste.ReplyIsCut` | client/X11/xf_cliprdr.c:2192-2311 | A reply with data is given to the waiting request as its conversion, cut by the same rule, or as no data if it does not convert. |
| `X11Paste.RawIsNeverCached` | client/X11/xf_cliprdr.c:1574-1576 | In every run a raw request finds nothing in the cache. |
| `X11Paste.RoutesAgree` | client/X11/xf_cliprdr.c:1361-1424 | A reply is converted to the format that the next request for the same target looks for, and from it if and only if the target has a name or its own id was asked for. |
| `X11Paste.TiffFromBitmap` | client/X11/xf_cliprdr.c:404-425 | From a server with CF_DIB and no CF_TIFF, image/tiff asks for CF_DIB and looks for CF_TIFF. |
| `X11Paste.SecondPasteIsCached` | client/X11/xf_cliprdr.c:2316-2354 | After an answered paste and any other local requests, the same paste is answered with the same data and without the server. |
| `X11Paste.OtherTargetIsConverted` | client/X11/xf_cliprdr.c:1567-1597 | Data received for one target serve other targets of the same source, converted when they are asked for and without the server. |
| `X11Paste.SingleFlight` | client/X11/xf_cliprdr.c:1610-1629 | Between replies and format lists at most one request goes to the server, and none while one waits. |
| `X11Paste.NextKeepsInStep` | client/X11/xf_cliprdr.c:1995-2001 | A waiting request is the last one at the server if it was sent, and not there otherwise; a format list that meets an awaited request makes it an orphan, a reply that meets none is an orphan's, nothing else changes their number. |
| `X11Paste.ReplyIsOwn` | client/X11/xf_cliprdr.c:2189-2199 | A reply is for the waiting request if and only if that was sent and there are no orphans. |
| `X11Paste.OrphansOverRun` | client/X11/xf_cliprdr.c:1995-2001 | Over every run, whichever requests reach the server, the orphans are the format lists that met an awaited request less the replies that met none. |
| `X11Paste.RepliesAreOwnExactly` | client/X11/xf_cliprdr.c:2157-2374 | After every run, whichever requests reach the server, a reply that meets a waiting request is its own if and only if that was sent and as many replies met no awaited request as format lists met one. |
| `X11Paste.RepliesAreOwn` | client/X11/xf_cliprdr.c:2157-2374 | In every run in which no format list meets an awaited request, the server has exactly the awaited request, if there is one. |
| `X11Paste.StaleReplyIsTaken` | client/X11/xf_cliprdr.c:1995-2001 | A paste, a format list and another paste: the reply to the first answers the second. |
| `X11Paste.ReleasedExactly` | client/X11/xf_cliprdr.c:1610-1629 | A waiting request stops waiting exactly at a format list or a reply. |
| `X11Paste.UnsentBlocks` | client/X11/xf_cliprdr.c:1610-1629 | In every run without a format list from a state whose waiting request was not sent, it goes on waiting, nothing is asked of the server, and what is not cached is refused. |
| `X11Paste.UnsentPaste` | client/X11/xf_cliprdr.c:1618-1629 | A first paste that is not sent leads to such a state. |
| `X11Paste.Clipboard.Find` | client/X11/xf_cliprdr.c:1567-1597 | The data found in the caches or made from raw data, and the cache afterwards. |
| `X11Paste.Clipboard.Ask` | client/X11/xf_cliprdr.c:1616-1629 | The request waits, its format is noted, and the server is asked. |
| `X11Paste.Clipboard.ConvertExisting` | client/X11/xf_cliprdr.c:1426-1485 | The conversion, cut at the first zero where text is expected, and cached if there is one. |
| `X11Paste.Clipboard.ProcessSelectionRequest` | client/X11/xf_cliprdr.c:1507-1645 | Ignores a selection that is not its own; answers from the caches, refuses duplicates and unknown targets, or sends the one request and waits; a requestor without a property is sent a refusal in place of an answer. |
| `X11Paste.Clipboard.ServerFormatDataResponse` | client/X11/xf_cliprdr.c:2157-2374 | A failure or empty data drops the waiting request, anything else is cached, given to it and forgets it; a reply nobody waits for changes nothing. |
| `X11Paste.Clipboard.ClearCachedData` | client/X11/xf_cliprdr.c:1334-1348 | Both caches are empty; a waiting request still waits. |
| `X11Paste.Clipboard.ServerFormatList` | client/X11/xf_cliprdr.c:1995-2001 | The waiting request, its format and both caches are forgotten. |
| `X11Copy.RunKeepsInv` | client/X11/xf_cliprdr.c:452-495 | In every run: requests are the responses, the overtaken and the unanswerable ones and the pending one; responses are in the order of their requests, none twice; outside a transfer nothing is collected. |
| `X11Copy.OutcomeExactly` | client/X11/xf_cliprdr.c:949-1056 | The response is the conversion from the local format to the id asked for, packed for files; a failure if and only if there is no data, no format, no conversion or no packing. |
| `X11Copy.CopyIsConverted` | client/X11/xf_cliprdr.c:949-1171 | One property, or the chunks of a transfer, give one response with the conversion of their bytes. |
| `X11Copy.RequestExactly` | client/X11/xf_cliprdr.c:2107-2149 | A request fails at once if and only if no format serves it, and otherwise is the pending one; with raw transfers it is for the raw format. |
| `X11Copy.FailsExactly` | client/X11/xf_cliprdr.c:926-1171 | A pending request fails if the answer is for another target, cannot be read or has no data, and when formats are announced; a format list of the server leaves it pending and ends a transfer. |
| `X11Copy.NotifyExactly` | client/X11/xf_cliprdr.c:1096-1171 | A change of the property is read for the pending request in a transfer, and means nothing outside one. |
| `X11Copy.IncrementalCopy` | client/X11/xf_cliprdr.c:1073-1171 | An incremental transfer ends in one response for the concatenation of its chunks, however cut and whatever was left before; only one without chunks before any data fails. |
| `X11Copy.SingleCopy` | client/X11/xf_cliprdr.c:949-1056 | A single property is answered at once with exactly its data if no transfer runs; otherwise it is only collected. |
| `X11Copy.MarkerIsNotAnswered` | client/X11/xf_cliprdr.c:459-461 | A request for the id that marks "no request" gets no response. |
| `X11Copy.FirstServingIsFirst` | client/X11/xf_cliprdr.c:367-386 | The format found is the first that has the id, or is an image where HTML is asked for an image; none only if there is none. |
| `X11Copy.FormatIsFirst` | client/X11/xf_cliprdr.c:367-386 | The format found is the first of the table that has the id or, while the owner has an image, the first image where HTML is asked for. |
| `X11Copy.Clipboard.GetClientFormatById` | client/X11/xf_cliprdr.c:367-386 | The loop finds that format. |
| `X11Copy.Clipboard.SendDataResponse` | client/X11/xf_cliprdr.c:452-495 | Responds if a request is pending, which it then is no longer. |
| `X11Copy.Clipboard.Append` | client/X11/xf_cliprdr.c:1073-1087 | The batch follows the bytes collected; the two zero bytes behind are not counted. |
| `X11Copy.Clipboard.StopIncr` | client/X11/xf_cliprdr.c:1089-1094 | No transfer runs and nothing is collected. |
| `X11Copy.Clipboard.ProcessRequestedData` | client/X11/xf_cliprdr.c:949-1056 | Waits for more during a transfer; otherwise responds with the conversion, packed for file lists, or a failure. |
| `X11Copy.Clipboard.GetRequestedData` | client/X11/xf_cliprdr.c:1096-1171 | Every way a property can look: unreadable, empty, the start, a batch or the end of a transfer. |
| `X11Copy.Clipboard.SendFormatList` | client/X11/xf_cliprdr.c:926-930 | A pending request fails and a running transfer is dropped before a new list is announced. |
| `X11Copy.Clipboard.ServerFormatDataRequest` | client/X11/xf_cliprdr.c:2107-2149 | The request becomes the pending one and the owner is asked for the format found, or it fails at once. |
| `Announce.AnnouncedExactly` | client/X11/xf_cliprdr.c:678-769 | No id twice, at most one entry more than targets; the ids are those the targets stand for, and HTML if one is an image. |
| `Announce.EntriesExactly` | client/X11/xf_cliprdr.c:678-769 | Every entry has the id and the name of a target's format, but for one of HTML at the end if a target is an image. |
| `Announce.AtomIsFirst` | client/X11/xf_cliprdr.c:388-402 | A target is known by the first entry of the table with its atom. |
| `Announce.ChangedIsSetChange` | client/X11/xf_cliprdr.c:837-863 | Between lists without duplicates, "changed" means that the sets differ. |
| `Announce.UnchangedExactly` | client/X11/xf_cliprdr.c:837-863 | "Unchanged" implies equal sets for all new lists if and only if the last list has no duplicates. |
| `Announce.PollAnnouncesChange` | client/X11/xf_cliprdr.c:897-939 | After every run, a poll announces if and only if it is forced or the set differs from the remembered one, and then the server knows the set of a non-empty selection. |
| `Announce.ServerListForgets` | client/X11/xf_cliprdr.c:1995-2001 | After a format list of the server every non-empty selection is announced, changed or not. |
| `Announce.LooksAnnounceChange` | client/X11/xf_cliprdr.c:897-947 | The same for every run of looks at any targets, whose lists have no duplicates by construction. |
| `Announce.ShouldAddFormat` | client/X11/xf_cliprdr.c:661-676 | True exactly for a known format whose id is not in the list yet. |
| `Announce.GetFormatsFromTargets` | client/X11/xf_cliprdr.c:678-769 | Fills the buffer, without running over it, with the announced list, and says whether it holds an image. |
| `Announce.ClipboardChanged` | client/X11/xf_cliprdr.c:837-863 | The nested search decides the change. |
| `Wheel.ScrollArrives` | client/Wayland/wlf_input.c:182-236 | For every scroll the decoded rotations add up to its value, negated on the vertical axis; each is in that direction and 1 to 255, and there are as few events as possible. |
| `Wheel.EventIsReceived` | client/common/client.c:1630-1675 | The receiver's decoding of an event gives its axis, direction and size. |
| `Wheel.EventLayout` | client/Wayland/wlf_input.c:195-232 | The bits of an event: the axis above nine bits of rotation in two's complement. |
| `Wheel.HandleWheel` | client/Wayland/wlf_input.c:182-236 | The events are sent in order up to the first failure; an unknown axis or unscalable position sends nothing and fails. |

## Left out

- X11, Wayland, WinPR and operating system calls: only their effect on the modelled state is there, as parameters and events.
- Format conversions (`ClipboardSetData`, `ClipboardGetData`, UTF-8 and UTF-16): functions given from outside; of the text conversions only the identity on 7-bit text is assumed.
- Format names beyond 7 bits: the padding by byte count would need the conversions themselves.
- The 8-byte header of the clipboard PDUs and the dispatch by message type: the header is a parameter of the writer, and readers start behind it.
- HuffmanIndex.LomIsIndexable: the hypotheses are not discharged for the 293-entry LEC table, only for LOM; the theorem about the index covers both layouts.
- HuffmanIndex.GetValue: for keys whose hash lies behind the table, where the C code reads out of bounds, the model has no answer.
- Rdpei.Write4ByteSigned: negating the 32-bit minimum is undefined in C; the model takes two's complement wrap-around.
- Wheel.HandleWheel: excludes the smallest 32-bit value, whose absolute value is undefined in C, and models the bit operations on disjoint bits as sums.
- ChannelWorker.ThreadProc: failures of waiting on or peeking into the queue are not modelled; the state machine treats each queue operation as one step.
- WaylandPaste.RepliesMatch: assumes a server that answers each request once and in order, and distinct requests.
- X11Paste.RepliesAreOwnExactly: assumes a server that answers in order, and requests that are told apart by their numbers; whether a request reaches the server is part of the run.
- X11Paste.Clipboard.ProcessSelectionRequest: the contents of the TIMESTAMP and TARGETS answers are left out.
- X11Paste.FoundIsFresh: assumes what the table of targets and the clipboard give: named formats have registered ids, from 0xC000 on, and targets without a name stand for standard formats.
- X11Paste.Clipboard.ServerFormatList: the rebuilding of the target list and taking the selection ownership are left out.
- X11Copy.SingleCopy: what happens to data that arrives for a new request during an old transfer is only stated as "collected".
- ResizeThrottle.StepKeepsInv: assumes a monotone clock and timers that never fire early; layouts for several monitors count as one send, and the direct layout send on a RandR event, which bypasses the throttle, is not modelled.
- File transfer (`cliprdr_file_context`), locking and the serialisation of file lists: file lists are packed by a given function.
- The Wayland client's answers to the server's data requests: they carry content only for file lists.
- Announce.GetFormatsFromTargets: the table of client formats is a parameter; its construction from atoms is not modelled.
- Cursors, painting, keyboard, scaling of coordinates, credential dialogs, graphics and the remaining channels: they draw, call the window system, or copy fields of fixed layout, and keep no protocol state.
