# WAMPES, verified in parts

A Dafny model of the parts of WAMPES whose correctness rests on state that many
functions share: the memory allocator, the AX.25 routing table with the header
codec and the reassembly of datagrams, the convers network, the time library, and
five smaller components. Code that works step by step is modelled as methods and
classes that change their fields as the program does; each is proved against a
function or a predicate that says what it is for, and the properties of the whole
are lemmas about those.

`dafny verify dfyconfig.toml` checks everything.

**Allocator** (`Memory`, `Tiling`, `FreeLists`, `HeapSteps`, `Allocator`,
`BuddyAllocator`). A byte-addressed memory holds block headers and free lists. The
blocks tile every arena; each list is a doubly linked chain of exactly the free
blocks of its level; the counters agree with both. `brk` is a parameter: it grants
a fresh area or fails. Merging may be switched on and off at any time.

**AX.25** (`Ax25Address`, `Ax25Text`, `Ax25Header`, `Ax25Codec`, `RouteGraph`,
`Ax25Wire`, `Ax25Routes`, `Ax25Path`, `Ax25Reassembly`). Routes form a graph under their digi
pointers. That the next hop of a permanent route is permanent is what keeps learned
frames from closing a cycle: learning stops at permanent entries, and everything
from there on is out of its reach. The table starts empty.

**Convers** (`ConversNode`, `ConversHost`, `ConversLinks`, `ConversSteps`,
`ConversNetwork`, `ConversUnique`, `ConversMessages`, `ConversCommands`). `ConversNode` says what each
command makes of the state of one host, `ConversHost` is the daemon that does it in
place, `ConversCommands` says what a command comes to for the user and for everyone
else, and `ConversNetwork` lets any number of hosts run with FIFO connections and
lines under way. A log of every version a home host gave its users is kept beside
the network, for the proofs. Connections are not lost and there is at most one
between two hosts; terminals come and go.

**Time** (`Calendar`, `Mktime`, `ZoneRules`). The reference is a closed-form day
count of the Gregorian calendar. Leap seconds are not counted, and a zone has one
offset where mktime is concerned.

**Smaller parts**: `Md5` with `Md5Vectors`; `StringMatch`; `NewsrcText`, `Newsrc`, `Newsgroups` and
`NewsrcFile`; `Ndbm`; `AxipPolicy` and `AxipRules`. `Options` and `Numerals` serve several of them.

## Where the code does something else than it seems to promise

- malloc adds 7 to an unsigned size. From 2^32 - 7 on the sum wraps and a block of 16
  bytes is given (`Allocator.RequestFitsIff`, `Allocator.WrappedRequest`).
- normalize leaves a multiple of the base below -base at the base, so mktime does not
  find a time for a minute of -120 (`Mktime.NormalizeKeeps`, `Mktime.MinusTwoHours`),
  and reads past the table of months for a month of -24, which the model excludes.
- The loop of time2 over days below one takes off the length of the year before,
  which is a day wrong from March on where one of the two years is a leap year
  (`Mktime.SlipIff`, `Mktime.DayZeroOfMarch`).
- mktime looks for the start of the minute first. For the first seconds a time_t can hold
  that is not representable, and mktime fails on what localtime gives (`Mktime.Inverts`,
  `Mktime.FirstSecond`).
- The flat address walks of axip and the parser agree only on frames whose repeated
  digipeaters come first (`Ax25Codec.WalkersAgreeIff`, `Ax25Codec.GappedFrame`).
- The test for UI frames says no to one without digipeaters that consists of the
  addresses and the control byte (`Ax25Codec.BareUiFrame`). Where the destination carries
  the mark that ends the addresses, which the parser does not look at, it takes the first
  byte of the source for the control byte (`Ax25Codec.EarlyEnd`). What it says of every
  frame is in `Ax25Codec.UiTestAgrees`.
- Loading ranges that overlap from .newsrc makes the count of unread articles too
  small (`Newsrc.CountIsRightIff`, `Newsrc.SharedArticle`).
- load_groups moves the current article up to the first one of its group but not down to
  the last (`NewsrcFile.RestorePosition`). The bits after the last article are never set, so
  set_position then stops at once with a number that is no article of the group
  (`NewsrcFile.SetPosition`, `NewsrcFile.PositionPastEnd`), and the command that reads it
  answers that the number is out of range.
- dbm_delete notes an error when it finds no key, and dbm_close then writes no record: all
  is lost unless the caller clears the error (`Ndbm.CloseAndOpen`, `Ndbm.FailedDelete`).
- A time_t of more than 56 bits holds times whose year is no int, and the search of mktime
  may come to them (`Mktime.YearsFitIff`).

## Model

| member | source | states |
|---|---|---|
| Tiling.BuddyIsABlock | src/alloc.c:231-233 | The header that coalescing reads at p ^ 2^n is always the start of a block of the tiling, and of one no larger than 2^n, because a block that merely covered it would cover p as well. |
| Tiling.SplitKeepsTiling | src/alloc.c:152-155 | Halving a block keeps every arena tiled by disjoint, aligned blocks and adds exactly one. |
| Tiling.MergeKeepsTiling | src/alloc.c:230-239 | Joining two free buddies of one level keeps the tiling and takes exactly one block away. |
| Tiling.AddArenaKeepsTiling | src/alloc.c:139-151 | A fresh, aligned arena keeps the tiling. |
| Tiling.AllFreeMeansWhole | src/alloc.c:229-240 | If nothing is in use and no two buddies are both free, every arena is one block of the top level. |
| FreeLists.LinkKeepsHeap | src/alloc.c:106-114 | Linking an open block leaves every free list a well-formed doubly linked chain of exactly the free blocks of its level, with right headers. |
| FreeLists.UnlinkKeepsHeap | src/alloc.c:118-126 | Taking a block out of the middle or the front of its list leaves the same. |
| HeapSteps.SplitNoPairs | src/alloc.c:152-155 | Splitting makes no pair of free buddies. |
| HeapSteps.MergeNoPairs | src/alloc.c:230-239 | Joining two buddies makes none either. |
| Allocator.SizeIndex | src/alloc.c:172-180 | The cascade of shifts finds the number of significant bits of nb + 7, and no level below the smallest. |
| Allocator.LevelIsLeast | src/alloc.c:172-180 | For requests that do not wrap, the level is the least whose block holds the request and the header. |
| Allocator.RequestFitsIff | src/alloc.c:172-180 | The block of that level holds the request exactly when nb + 7 does not wrap around 2^32. |
| Allocator.WrappedRequest | src/alloc.c:172-180 | A request of 2^32 - 1 bytes is given a block of 16. |
| BuddyAllocator.BuddyAllocator.constructor | src/alloc.c:72-84 | The empty heap meets the invariant. |
| BuddyAllocator.BuddyAllocator.GetBlock | src/alloc.c:130-160 | A block of the wanted level is opened, the head of its list if there is one; failure is exactly an empty table from that level up and a refused brk, and then nothing has changed. |
| BuddyAllocator.BuddyAllocator.Malloc | src/alloc.c:166-193 | A granted block was not in use and has the level of the request; it is refused exactly when no list from that level up has a block and brk fails, and the program exits exactly for levels above the top; no other user area changes and Inuse grows by the block size. |
| BuddyAllocator.BuddyAllocator.Free | src/alloc.c:199-242 | Null does nothing; a block that is not in use only counts as invalid; a live one is given back with the counters right and no other user area changed. |
| BuddyAllocator.BuddyAllocator.MergeUp | src/alloc.c:229-240 | Coalescing stops at the top level or at a buddy that is in use or of another level, with no free pair made on the way. |
| BuddyAllocator.BuddyAllocator.Realloc | src/alloc.c:248-287 | The new block has the level of the size, begins with the old min(capacity, size) bytes, and the old one is free; on failure the old one is as it was; size 0 frees. |
| BuddyAllocator.BuddyAllocator.WriteUserArea | src/alloc.c:192-192 | A write inside a user area breaks nothing of the heap. |
| BuddyAllocator.AllGivenBack | src/alloc.c:227-241 | With merging on from the start, after everything is freed each arena is one top-level block, Splits equals Merges and Inuse is 0. |
| Ax25Address.AddrEqIsSameCopy | src/ax25subr.c:436-472 | addreq holds of two addresses exactly when addrcp makes the same of them, so it is an equivalence. |
| Ax25Address.HashRespectsAddrEq | src/ax25.c:1884-1897 | Calls that addreq takes for the same hash to the same bucket. |
| Ax25Address.HashKeepsNibbles | src/ax25.c:1884-1897 | Calls hash to the same number exactly when bits 1 to 4 of each of their seven bytes are the same. |
| Ax25Text.SetCall | src/ax25subr.c:376-434 | For SSID text whose value an int holds, a text is taken for a callsign exactly under the conditions of IsCall, and what is stored is the upper-case letters shifted, blanks, and the SSID with the reserved bits. |
| Ax25Text.Pax25 | src/ax25subr.c:475-491 | The text of an address: its letters without blanks, and the SSID unless it is zero. |
| Ax25Text.TextComesBack | src/ax25subr.c:376-491 | setcall of pax25 of an address with plain letters and trailing blanks gives that address, flag bits apart. |
| Ax25Text.RefusedIff | src/ax25subr.c:382-420 | No callsign is exactly what is empty, has a star in it, has no dash among its first seven characters, or has an SSID that is not from 0 to 15. |
| Ax25Text.CaseDoesNotMatter | src/ax25subr.c:420-426 | Small letters are taken like capitals, in every text. |
| Ax25Text.KnownCall | src/ax25subr.c:376-434 | The seven bytes of "db0aaa-12". |
| Ax25Text.TextIs | src/ax25subr.c:475-491 | The text of a plain address is its letters and, unless it is 0, the SSID in decimal after a dash. |
| Ax25Text.KnownFingerprints | src/ax25.c:2378-2415 | The hash is FNV-1a: the fingerprints of the empty frame, of "a" and of "foobar" are the published hashes with the length mixed in. |
| Ax25Text.OnlyTheBeginning | src/ax25.c:2404-2415 | Two frames of one length that begin with the same 64 bytes have one fingerprint. |
| Ax25Text.FingerprintData | src/ax25.c:2404-2415 | The fingerprint of a flat frame: the hash of at most its first 64 bytes and its length. |
| Ax25Text.FingerprintChain | src/ax25.c:2378-2396 | A frame in a chain of buffers has the fingerprint of the flat frame, wherever it is cut. |
| Ax25Header.Ax25.Htonax25 | src/ax25hdr.c:12-98 | The cursor over the buffer writes exactly the encoded addresses in front of the payload. |
| Ax25Header.Ax25.Ntohax25 | src/ax25hdr.c:103-176 | The parser fills the struct with what the frame decodes to and returns the number of addresses, or -1 exactly for a frame that is too short or has too many. |
| Ax25Codec.RoundTrip | src/ax25hdr.c:12-176 | Decoding an encoded header gives the same addresses but for flag bits, the same digipeater count, position, command or response and extension bits, and the payload untouched. |
| Ax25Codec.SentNamesTheSame | src/ax25hdr.c:12-98 | What the flags are set to on the way out changes no address in the sense of addreq. |
| Ax25Codec.PassedOnUnchangedIff | src/ax25hdr.c:12-176 | A decoded frame is encoded to the same bytes exactly when its flag bits are the ones the encoder would set. |
| Ax25Codec.DecodedLayout | src/ax25hdr.c:103-176 | Where each address of a decoded header lies in the frame. |
| Ax25Codec.FindDest | src/axip.c:834-846 | The walk of axip_raw over a frame finds the position its specification names, within the bounds of the frame. |
| Ax25Codec.FindSource | src/axip.c:1316-1325 | So does the walk of axip_recv. |
| Ax25Codec.WalkersAgreeIff | src/axip.c:834-846 | On a decodable frame the walks find the immediate destination and source of the decoded header exactly when the repeated digipeaters are the first ones of the path. |
| Ax25Codec.OffsetsHoldStations | src/ax25.c:1121-1133 | At those positions lie the immediate destination and source that ax_recv uses. |
| Ax25Codec.SentIsContiguous | src/ax25hdr.c:76-98 | Every frame the encoder writes has its repeated digipeaters first. |
| Ax25Codec.GappedFrame | src/axip.c:1316-1325 | A frame with a gap in the repeated marks, on which the walks and the decoder disagree. |
| Ax25Codec.FrameIsUi | src/ax25.c:2427-2444 | The loop decides the flat test for a UI frame. |
| Ax25Codec.UiTestAgrees | src/ax25.c:2427-2444 | What the test says of every frame the parser takes, Flexnet frames apart: where the destination does not end the field, UI exactly when the control byte after the addresses is UI and is not all there is behind two addresses; where it does, UI exactly when there are more than 15 bytes and the first byte of the source is UI. |
| Ax25Codec.BareUiFrame | src/ax25.c:2432-2433 | Two addresses and a UI control byte, which the parser takes and the test does not call UI. |
| Ax25Codec.EarlyEnd | src/ax25.c:2434-2444 | A frame whose destination ends the field, which the test calls UI though its control byte is another. |
| Ax25Wire.EncodedBits | src/ax25hdr.c:43-98 | Every bit of an encoded header: letters and SSID of each address, the command or response mark, the marks of the digipeaters that are done, the end mark on the last address, and the two bits of the source that say DAMA and extended by their absence. |
| Ax25Wire.DecodedBits | src/ax25hdr.c:137-176 | What each bit of an accepted frame is taken for. |
| Ax25Wire.WalksStop | src/axip.c:1316-1325 | What both walks find in any bytes whatever, decodable or not: which address, and that they give up exactly where the bytes or the digipeaters allowed come to an end before the field does. |
| Ax25Wire.UiTestMeans | src/ax25.c:2427-2444 | What the test for UI frames says of any bytes whatever. |
| Ax25Wire.FlexnetComesBack | src/ax25hdr.c:24-40 | The seven bytes in which Flexnet packs a call of six-bit letters, a connection number and the kind of frame are unpacked to the same call, number and kind; the packing is in the source, but not compiled. |
| RouteGraph.PermanentChain | src/ax25.c:1976-2098 | From a permanent entry on the whole chain is permanent, so it ends within the permanent entries. |
| RouteGraph.RepointKeepsAcyclic | src/ax25.c:1994-1998 | Pointing an entry at a chain that ends without meeting it closes no cycle. |
| RouteGraph.WithoutKeepsWellFormed | src/ax25.c:2119-2188 | Removing an entry and sending what pointed at it on to a later hop leaves a well-formed graph. |
| RouteGraph.CutKeepsWellFormed | src/ax25file.c:80-116 | So does removing one and cutting what pointed at it. |
| RouteGraph.GoneMeans | src/ax25.c:2172-2188 | What is left of the table: every other entry, the same but that those that pointed at the one removed point elsewhere. |
| Ax25Routes.RouteTable.constructor | src/ax25.c:1900-1921 | The empty table meets the invariant. |
| Ax25Routes.RouteTable.RoutePtr | src/ax25.c:1900-1921 | The entry of the call if there is one in the bucket; otherwise none, or a new one in front of it. |
| Ax25Routes.RouteTable.Add | src/ax25.c:1962-2102 | If every call is valid and no two are the same, each has an entry and every other entry is as it was; otherwise nothing changes. Chains stay acyclic, permanent entries lead to permanent ones, one entry for a call, no dangling pointer. What becomes of each entry is in AddedEntry, PermanentLeftAlone and NewEntryIsRemote. |
| Ax25Routes.LearnableIff | src/ax25.c:1975-1987 | A frame is learned from exactly when no station on its way is one of our ports, a multicast call or empty, and none is on it twice. |
| Ax25Routes.AddedEntry | src/ax25.c:1989-2100 | Each station points at the next one and has no port; the last has none to point at and the port it was heard on, unless it was heard on the other port of the same bridge less than 300 seconds before. Learning makes nothing permanent, an addition by hand makes every entry so. |
| Ax25Routes.PermanentLeftAlone | src/ax25.c:1992-1992 | A learned frame changes nothing of a permanent entry but the time of its last use. |
| Ax25Routes.NewEntryIsRemote | src/ax25.c:1975-1984 | No entry is made for a call of this node, for a multicast call or for an empty one. |
| Ax25Routes.StepKeeps | src/ax25.c:1989-2100 | One turn of the loop keeps that invariant for learned and permanent additions alike. |
| Ax25Routes.RouteTable.Unref | src/ax25.c:2172-2188 | Exactly the entries that pointed at the removed one point elsewhere. |
| Ax25Routes.RouteTable.Del | src/ax25.c:2119-2162 | The entry goes exactly when the call has one and the path given is the begin of its chain; what pointed at it is sent on behind that path. |
| Ax25Routes.RouteTable.Expire | src/ax25file.c:80-116 | An entry goes by age exactly when it is neither permanent nor marked by jumpstart and was not used for the hold time. |
| Ax25Routes.RouteTable.Jumpstart | src/ax25cmd.c:1394-1413 | The mark is set on the entry of the call, which is made if there is none, and nothing else changes. |
| Ax25Path.PathIsKept | src/ax25.c:2596-2625 | Whatever the table holds, the path behind us and the stations the user named stay, what is put in between fits, and a chain without a port leaves the path naming the same stations. |
| Ax25Path.Trim | src/ax25.c:2562-2584 | The last own position is found and the digipeaters before it are removed. |
| Ax25Path.TrimmedAtOwn | src/ax25.c:2562-2584 | After it no address to come is one of ours, the one before is, and the stations after it are those there were. |
| Ax25Path.FollowChain | src/ax25.c:2596-2603 | The walk inserts the targets of the chain, the farthest first, as far as there is room, and ends with the port of the last entry it sees. |
| Ax25Path.Axroute | src/ax25.c:2535-2648 | The completed header and the port of every frame, for any table that meets the invariant. |
| Ax25Path.PortIs | src/ax25.c:2596-2628 | The port of the last entry of the chain that a header has room for; the default where there is no entry or it has no port; and then the one that forw names. |
| Ax25Path.LeavesThrough | src/ax25.c:2596-2603 | Over a chain with a port a frame gets the hops of the chain, the nearest last, all of them if there is room, between what is behind us and the stations the user named. |
| Ax25Path.LeavesDirectly | src/ax25.c:2604-2621 | Without a port the path names the same stations as before. |
| Ax25Path.LeavesAs | src/ax25.c:2630-2647 | Our own frames leave with the call of the port as source; frames we hand on keep their source, and our call in the first place of the path becomes that of the port. Nothing changes the destination, and nothing at all a path that is to be kept. |
| Ax25Path.LearnedChain | src/ax25.c:1989-2100 | After learning a frame, the chain from its source inserts the passed digipeaters reversed and ends at the learned port. |
| Ax25Path.LearnThenReply | src/ax25.c:1962-2648 | Learning a frame and then routing a fresh header to its source gives exactly the passed digipeaters reversed, and the port it was heard on unless the bridge pin or forw say otherwise. |
| Ax25Reassembly.Reassembler.UiReasm | src/ax25.c:879-942 | The queue does to the pair of the segment what one slot would do, to no other pair anything, keeps at most one entry for a pair, and hands on what that slot completes. |
| Ax25Reassembly.Reassembler.TimerExpires | src/ax25.c:866-870 | A timeout empties the slot of its pair alone. |
| Ax25Reassembly.OtherPairsDoNotMatter | src/ax25.c:832-942 | The state of a pair after any run depends on the events of that pair only. |
| Ax25Reassembly.JoiningMeansInOrder | src/ax25.c:894-931 | A reassembly under way holds the content of the last segments of its pair, which count down from the first. |
| Ax25Reassembly.DeliveredIff | src/ax25.c:879-942 | A datagram is handed on exactly when the last segments of its pair are first/N-1, ..., 0, in any interleaving with other pairs and timeouts, and it is their content in order. |
| Ax25Reassembly.Segmenter | src/lapb.c:3051-3126 | A packet that fits goes as it is; otherwise it is cut into numbered frames; nothing goes exactly when it cannot be counted. |
| Ax25Reassembly.CutFrames | src/lapb.c:3108-3126 | Each frame has pid 8, the number of frames to come, the top bit exactly on the first, and its piece of the packet; all pieces are full but the last. |
| Ax25Reassembly.CutPacketArrives | src/lapb.c:3108-3126 | The frames a packet was cut into, coming in order for their pair, hand on that packet, whatever other pairs do meanwhile. |
| ConversHost.Conversd.SendUserChangeMsg | convers/conversd.c:674-706 | Every unlocked host link gets the USER line, terminals of the old and the new channel get their notice, and no other link anything. |
| ConversHost.Conversd.HUserCommand | convers/conversd.c:1784-1838 | The whole state after a USER line: taken, rejected for an own user with an answer, or ignored. |
| ConversHost.Conversd.HHostCommand | convers/conversd.c:1599-1672 | The whole state after a HOST line, with the former link to the host closed and the dump of all known users sent. |
| ConversHost.Conversd.CloseLink | convers/conversd.c:1071-1136 | Every user of the link is moved to another one or signed off with a new sequence number. |
| ConversHost.Conversd.NameCommand | convers/conversd.c:1459-1492 | The whole state after a login, with the former terminal of the user closed. |
| ConversHost.Conversd.ChannelCommand | convers/conversd.c:1152-1184 | The whole state after a change of channel. |
| ConversHost.Conversd.NoteCommand | convers/conversd.c:1368-1385 | The whole state after a change of the note. |
| ConversHost.Conversd.ProcessInput | convers/conversd.c:1918-1940 | A line is acted on with every link unlocked but the one it came from. |
| ConversCommands.ChannelChanges | convers/conversd.c:1152-1184 | Who asks for another channel from 0 to 32767 is on it, under a higher number, with the former one noted; every unlocked host link gets the USER line with both channels, terminals on the two channels their notices and no other terminal any, and the user an answer. |
| ConversCommands.ChannelStays | convers/conversd.c:1167-1177 | Any other number is answered and changes nothing. |
| ConversCommands.NoteChanges | convers/conversd.c:1375-1384 | Another note is the note, under a higher number; the hosts are told and no terminal. |
| ConversCommands.NoteStays | convers/conversd.c:1375-1384 | The same note or none is answered and changes nothing. |
| ConversCommands.NamedAs | convers/conversd.c:1459-1492 | Who logs in is at this terminal, on the channel asked for or on 0, with the note asked for or @, under a higher number; the former terminal is closed, nobody else changes, and everyone concerned is told of the move from the former channel. |
| ConversCommands.LinkEnds | convers/conversd.c:1071-1136 | A link that is closed leads to nobody and gets no line; each of its users leaves it once and no other user is touched. |
| ConversCommands.SignsOff | convers/conversd.c:1117-1136 | A user whose link is gone goes on over the best other way to the host and nobody is told; or else is off, without link and channel, under the next number, and everyone concerned is told. |
| ConversCommands.NewsIsTaken | convers/conversd.c:1812-1833 | News of a user of another host is taken over field by field and told to all but the link it came from. |
| ConversCommands.OwnUserIsDefended | convers/conversd.c:1817-1821 | News of our own user is answered on its link with our channel and note under a number that is higher still, and changes nothing but that number. |
| ConversCommands.NoNewsIsIgnored | convers/conversd.c:1812-1816 | What is no news changes no user and is told to nobody. |
| ConversCommands.DumpByUser | convers/conversd.c:1655-1668 | The list for another host has for each user who is or was on a channel one line with all that is known, in order. |
| ConversCommands.HostIsGreeted | convers/conversd.c:1644-1668 | A host that no other link leads to gets our name and that list, and nothing else changes. |
| ConversCommands.FormerLinkIsReplaced | convers/conversd.c:1629-1636 | A former link to the host is closed; whoever was reached over it is reached over the new one, and nobody is signed off or told. |
| ConversSteps.AcceptedKeeps | convers/conversd.c:1812-1833 | A USER line that is taken is told to every other host link and leaves every record a version that its home host gave. |
| ConversSteps.HHostKeeps | convers/conversd.c:1618-1668 | After a HOST line the other side has everything this host knows under way. |
| ConversSteps.NameKeeps | convers/conversd.c:1459-1492 | A login is a new version, told to every host link; nobody else is signed off by the closing of the former terminal. |
| ConversSteps.HangupKeeps | convers/conversd.c:1117-1136 | A terminal that goes signs off its own user and no other. |
| ConversNetwork.StepKeeps | convers/conversd.c:1599-1838 | The invariant of the network through every step: records and lines carry versions of their home host, on each connection the far side is as new or the news is on the way, and a host introduces itself before anything else. |
| ConversNetwork.NobodyIsAhead | convers/conversd.c:206-210 | No host has a higher sequence number for a user than the home host. |
| ConversNetwork.NoLineIsAhead | convers/conversd.c:674-706 | Nor has any line under way. |
| ConversNetwork.SameVersionSameUser | convers/conversd.c:701-701 | Hosts with the same sequence number for a user, 0 included, have the same channel, and the same note while the user is on one. |
| ConversNetwork.QuietWireAgrees | convers/conversd.c:1655-1668 | When nothing is under way both ends of a connection have the same version of every user. |
| ConversNetwork.QuietNetworkAgrees | convers/conversd.c:1784-1838 | When nothing is under way every host joined to the home host by connections knows the user as the home host does: version, channel, and the note while the user is on a channel. |
| ConversNetwork.RunRises | convers/conversd.c:1812-1816 | Through every run no host falls back to an older version. |
| ConversNetwork.TakenOnce | convers/conversd.c:1812-1816 | Once a host has taken a version of a user it takes none that is the same or older, through every later run. |
| ConversNetwork.DeliveryProgresses | convers/conversd.c:1784-1940 | Every delivery makes the potential of the network smaller: lines under way, versions that hosts lack, and sides that have not heard from the other host, each at what it may set off. |
| ConversNetwork.FloodIsBounded | convers/conversd.c:1784-1838 | Whatever lines are delivered in whatever order and at whatever times, there are no more deliveries than that potential. |
| ConversNetwork.StuckMeansQuiet | convers/conversd.c:1784-1838 | When no line can be delivered any more the network is quiet. |
| ConversNetwork.FloodEnds | convers/conversd.c:1784-1838 | Whoever chooses the deliveries, step for step and with any clock, comes to a quiet network within that bound. |
| ConversNetwork.NewsArrives | convers/conversd.c:1784-1838 | After any history of a network that starts without a host, whoever chooses the deliveries, no more of them than the bound bring every host joined to the home of a user to what the home knew of the user when they began. |
| ConversNetwork.NoNullLink | convers/conversd.c:763-768 | In every run the record of a user on a channel has a link that is there, of the user or to another host; the loops over the users that hand on a message read it at once. |
| ConversUnique.UniqueIndex.IsStringUnique | convers/conversd.c:214-260 | For a duration up to an hour the answer is no exactly when the MD5 digest of the text was accepted within that duration, although buckets are pruned and the tail pointer dangles when they are empty; no two acceptances of a digest are closer than was asked for. |
| ConversUnique.SearchIsRight | convers/conversd.c:240-245 | The search of a pruned bucket gives the answer for the whole history. |
| ConversUnique.TailGrows | convers/conversd.c:247-259 | Appending by the tail pointer is right whenever the list is not empty. |
| ConversUnique.StaysSpaced | convers/conversd.c:235-245 | An acceptance keeps the acceptances of a digest apart. |
| ConversMessages.CopiesAreOneEach | convers/conversd.c:763-768 | Each link that leads to someone who is meant gets one copy if it was not locked, and no other link gets any. |
| ConversMessages.ChannelHears | convers/conversd.c:744-769 | A message for a channel goes to exactly the unlocked links over which someone on that channel is reached: as it is to a host, to a terminal as the text before the marker with the name of the sender in front. |
| ConversMessages.UserHears | convers/conversd.c:710-739 | A message for a user goes so to everyone of that name who is on a channel, and without a name in front if it comes from the daemon. |
| ConversMessages.LineTellsAll | convers/conversd.c:754-758 | Two messages with one line are one message, so what the index of digests suppresses was said by the same user to the same people. |
| ConversMessages.NeverBack | convers/conversd.c:1918-1919 | The link a line came in on gets no copy. |
| ConversHost.Conversd.Relay | convers/conversd.c:744-769 | A message from another host is handed on exactly when it has a text and the digest of its line was not accepted within half an hour; then each unlocked link that leads to someone who is meant gets one copy. |
| ConversHost.Conversd.TextInput | convers/conversd.c:1918-1940 | The same with the link it came in on locked. |
| ConversHost.PassOnAll | convers/conversd.c:214-260 | Over any run of messages on any links, two with the same line are passed on only more than half an hour apart, and what is not passed on is empty or has the digest of something accepted within half an hour before. |
| Calendar.NextYear | aos/ctime.c:398-400 | The closed-form day count of years advances by the length of each year, negative years included. |
| Calendar.TmCompIsOrder | aos/ctime.c:1209-1222 | tmcomp orders dates and times as the seconds they stand for. |
| Calendar.FieldsAreUnique | aos/ctime.c:1052-1141 | There is one Gregorian date and time for every number of seconds. |
| Calendar.Timesub | aos/ctime.c:1052-1141 | The loops find that date, time, weekday and day of the year for every t, negative ones included. |
| Mktime.NormalizeKeeps | aos/ctime.c:1190-1206 | The total is kept and the units come into range, except that a multiple of the base below -base is left at base, and only that. |
| Mktime.CarriedKeeps | aos/ctime.c:1242-1246 | After the four carries the fields mean what they meant; a minute or an hour is left out of range exactly for the values Stuck names. |
| Mktime.TakeYears | aos/ctime.c:1247-1251 | The loop over days below one, and by how many days it is off. |
| Mktime.SlipIff | aos/ctime.c:1247-1251 | That loop is right exactly when it does not run, the month is January or February, or the two years are equally long. |
| Mktime.DayZeroOfMarch | aos/ctime.c:1247-1251 | The day before the first of March 2000 comes out as the 28th of February. |
| Mktime.MinusTwoHours | aos/ctime.c:1190-1206 | Noon less 120 minutes is left with a minute of 60. |
| Mktime.TakeMonths | aos/ctime.c:1252-1262 | The loop over days past the end of the month finds a date of the same day number. |
| Mktime.Bisect | aos/ctime.c:1270-1290 | For a time_t of any width the bisection ends, and finds the time exactly when the fields are a date and time, it is representable and of the right kind; years are unbounded here. |
| Mktime.Time2 | aos/ctime.c:1225-1331 | When a time is found and which, for all fields. |
| Mktime.MeansWhatItSays | aos/ctime.c:1225-1331 | Where a time is found it is the one the fields name exactly when the day loop was right. |
| Mktime.Mktime | aos/ctime.c:1334-1385 | mktime in a zone with one offset returns that time, or -1. |
| Mktime.KindOfTime | aos/ctime.c:1242-1296 | A negative isdst takes any kind of time and another only its own; seconds up to 61 are not carried. |
| Mktime.Inverts | aos/ctime.c:1381-1385 | mktime of the fields localtime gives for t returns t exactly when the start of that minute is representable, and fails otherwise. |
| Mktime.FirstSecond | aos/ctime.c:1263-1297 | The first second of a time_t of 32 bits does not come back: its minute begins 52 seconds before all of them. |
| Mktime.YearsFitIff | aos/ctime.c:1119-1134 | The years that the int variables hold on the way are ints for every time_t of up to 56 bits, and for no wider one. |
| ZoneRules.ZellerAgrees | aos/ctime.c:626-634 | Zeller's congruence gives the weekday the day count gives, for every year from 1 on and every month. |
| ZoneRules.RuleDayIsUnique | aos/ctime.c:586-656 | A rule means one day of a year. |
| ZoneRules.NthWeekday | aos/ctime.c:622-650 | The loop finds the n-th such weekday of the month, or the last where there are fewer. |
| ZoneRules.Transtime | aos/ctime.c:578-664 | For every rule the time is that of the day it means, Julian days being the same date in every year. |
| ZoneRules.Transitions | aos/ctime.c:753-773 | The years of tzparse: two transitions each, the earlier first, at the days the rules mean. |
| Md5.Transform | lib/md5.c:189-285 | The 64 operations written out are the steps of section 3.4 of RFC 1321 in their compact form. |
| Md5.CountOn | lib/md5.c:123-127 | The two counters with their carry add eight times the length mod 2^64. |
| Md5.Md5Context.Update | lib/md5.c:114-144 | After any number of updates the counters hold the bits of the message, the words what its whole blocks make, and the buffer its tail. |
| Md5.Md5Context.Final | lib/md5.c:149-185 | The digest is that of the whole message, padded as sections 3.1 and 3.2 say. |
| Md5.DigestOfParts | lib/md5.c:98-185 | However a message is split into updates, its digest is the same. |
| Md5Vectors.DigestOfEmpty | lib/md5.c:149-185 | The digest of the empty message that section A.5 of RFC 1321 gives. |
| Md5Vectors.DigestOfAbc | lib/md5.c:149-185 | And that of "abc". |
| Md5Vectors.SomeLengths | lib/md5.c:149-185 | The length that is appended is that in bits as 64 bits with the low byte first, also where it passes 32 bits. |
| StringMatch.StringMatch | lib/strmatch.c:5-61 | The matcher ends and says yes exactly when the whole string can be cut into one piece for every token of the pattern; nothing matches a malformed pattern. |
| StringMatch.MatchMembers | lib/strmatch.c:36-49 | The loop over a class decides membership, ranges in either order, and where the class ends. |
| StringMatch.EscapedMatchesOnlyItself | lib/strmatch.h:8-20 | With every byte escaped a pattern matches its own string and no other. |
| StringMatch.SignsMean | lib/strmatch.h:8-20 | ? is any byte, * any run of bytes, a backslash takes away the meaning of the next byte, and any other byte is itself. |
| StringMatch.ClassMeans | lib/strmatch.h:8-20 | A class is one byte that it names by itself or within a range written in either order, or with ! one that it does not. |
| StringMatch.NotClosed | lib/strmatch.c:36-49 | A class that is not closed matches nothing. |
| Newsgroups.Group.SetRead | bbs/bbs.c:224-225 | Exactly that article is added to the read ones. |
| Newsgroups.Group.UnsetRead | bbs/bbs.c:229-230 | Exactly that article is taken away. |
| Newsgroups.Group.Mark | bbs/bbs.c:2370-2390 | A range inside the group is marked, the count of unread articles stays right, and a change is reported exactly when there is one; any other range changes nothing. |
| Newsgroups.Group.StoreLine | bbs/bbs.c:1246-1270 | The line of a group names its maximal runs of read articles. |
| Newsgroups.Group.LoadRanges | bbs/bbs.c:1378-1408 | What any text of ranges makes of a group, clipped at the first article and reset past the last. |
| NewsrcText.RangesReadBack | bbs/bbs.c:1378-1408 | The ranges that were written are read back. |
| Newsrc.StoredLoads | bbs/bbs.c:1246-1408 | Loaded with other bounds, the read articles are those within them, or none if one passes the new last article, and the count is right either way. |
| Newsrc.CountIsRightIff | bbs/bbs.c:1391-1405 | The count is right exactly when the group was reset or no article is in two ranges. |
| Newsrc.SharedArticle | bbs/bbs.c:1391-1405 | The ranges 1-3 and 3-4 in articles 1 to 5: four are read and the count of unread ones is 0. |
| NewsrcFile.FindGroup | bbs/bbs.c:1211-1225 | In a list ordered by strcmp the search finds the group exactly when it is there. |
| NewsrcFile.LoadLine | bbs/bbs.c:1363-1408 | One line changes its group and no other. |
| NewsrcFile.LoadLines | bbs/bbs.c:1362-1408 | The file line by line, for all groups at once. |
| NewsrcFile.FileComesBack | bbs/bbs.c:1229-1414 | Every group gets its subscription and its read articles back from the file. |
| NewsrcFile.NextUnread | bbs/bbs.c:1470-1476 | From a position that has a bit in the array the endless loop ends: at an unread article of the group with none passed over exactly when the position is not past the last article, and at the position itself otherwise. |
| NewsrcFile.RestorePosition | bbs/bbs.c:1351-1355 | The position after the groups are fetched; it lies in its group exactly when the article of before does not pass the new last one or there is nothing to read, and it has a bit in the array exactly when it does not pass the last bit. |
| NewsrcFile.PositionPastEnd | bbs/bbs.c:1351-1355 | Article 12 stays current when the last one is 10, and set_position finds 12, which is no article of the group, though all ten are unread. |
| NewsrcFile.SetPosition | bbs/bbs.c:1418-1478 | The next unread article of the current group, or the first of another subscribed one; none only if no subscribed group has any. In the current group it is an article of the group exactly when the position is not past the last one; a position past it is found itself. |
| Ndbm.LengthComesBack | lib/ndbm.c:70-83 | get32 inverts put32 below 2^32. |
| Ndbm.HighByteFirst | lib/ndbm.c:70-83 | The high byte of a length comes first, and every four bytes are the form of a length. |
| Ndbm.FileOfOne | lib/ndbm.c:198-240 | The bytes of the file that holds one record. |
| Ndbm.MapRemoves | lib/ndbm.c:297-317 | Removing the first record of a key removes it from the map exactly when no other has the key. |
| Ndbm.ClosedOpens | lib/ndbm.c:132-240 | The records written are the records read. |
| Ndbm.Dbm.constructor | lib/ndbm.c:132-195 | Opening reads the complete records of the file. |
| Ndbm.Dbm.Fetch | lib/ndbm.c:273-294 | Fetching looks the key up in the map. |
| Ndbm.Dbm.Store | lib/ndbm.c:243-270 | Storing updates the map and the record in its place, or refuses to overwrite, and keeps keys unique. |
| Ndbm.Dbm.Delete | lib/ndbm.c:297-317 | Deleting takes the key out of the map and the record out of its place; for an absent key it notes an error. |
| Ndbm.Dbm.ClearErr | lib/ndbm.c:356-361 | The error is forgotten. |
| Ndbm.Dbm.AllKeys | lib/ndbm.c:320-347 | firstkey and nextkey give every key once. |
| Ndbm.Dbm.Close | lib/ndbm.c:198-240 | The file of a changed database holds the records and nothing after them, or, where an error was noted, no record at all. |
| Ndbm.CloseAndOpen | lib/ndbm.c:132-240 | Closing a changed database and opening it gives the same records exactly when no error was noted or there are none, even if the file was longer before. |
| Ndbm.FailedDelete | lib/ndbm.c:204-306 | One record, and the deletion of another key: after closing it is lost, unless the error was cleared. |
| AxipPolicy.AxipTable.Add | src/axip.c:1777-1901 | The entry that is made or changed, or the refusal, for the sysop, the resolver and the traffic. |
| AxipRules.AddressTakenIff | src/axip.c:1785-1856 | Who may enter an address: the sysop always, the resolver for new calls, the same address and entries with a name, traffic for the same address or where the port learns and the entry is not permanent or once. |
| AxipRules.EntryAfterAdd | src/axip.c:1848-1901 | Every field of the entry afterwards: one that moves forgets the port it was heard from, only the sysop makes it a written one, and one that was only observed follows the port. |
| AxipRules.NewEntryAfterAdd | src/axip.c:1785-1901 | Every field of a new entry, which comes first. |
| AxipRules.CallAfterFrame | src/axip.c:1356-1384 | After a UDP frame the entry of the call has the port it came from if it can be trusted, the mark whether that is our own, and the time, if it is bound to no other port. |
| AxipRules.HeardAfterFrame | src/axip.c:1366-1384 | No other entry changes but for the time, and that exactly for those at the same address that are bound to no other port. |
| AxipPolicy.AxipTable.SessionHas | src/axip.c:1961-2064 | The entry a session is hung on, or the refusal. |
| AxipRules.SessionTakenIff | src/axip.c:1961-2040 | A call is taken from a session exactly where it hangs there already, where the entry is put down and not bound to another port, or where the port learns. |
| AxipRules.EntryOnSession | src/axip.c:2041-2064 | Every field of the entry afterwards. |
| AxipPolicy.AxipTable.Forget | src/axip.c:2071-2250 | The walk over the list takes what Drops says, keeps the rest in order and counts what went. What that is, entry by entry, is in TickTakes, SessionEndTakes and PortEndTakes. |
| AxipRules.TickTakes | src/axip.c:2205-2250 | A tick takes exactly the entries that are not written, permanent, once, named or default, hang on no session, are not direct partners, were heard once and have been silent for longer than their port says, or else the table; 0 is never. The others stay as they are. |
| AxipRules.SessionEndTakes | src/axip.c:2071-2109 | The end of a session takes exactly the entries on it that are not written, permanent, named or default; those that are lose the session; the others stay as they are. |
| AxipRules.PortEndTakes | src/axip.c:2130-2157 | The end of a port takes exactly its entries without a session that are not permanent, once, named or default. |
| AxipRules.SweptInOrder | src/axip.c:2071-2250 | What is left keeps its order. |
| AxipPolicy.FrameTakenIff | src/axip.c:1785-1856 | A frame is taken exactly when its call is at that address, or is free to move and may be learned here; then the call is there. |
| AxipPolicy.StepKeeps | src/axip.c:1777-2252 | Every step keeps one entry for a call at most and every permanent entry without a name with its address. |
| AxipPolicy.StepKeepsOnce | src/axip.c:1848-1856 | No step changes the address of a once entry without a name, nor what kind of entry it is. |
| AxipPolicy.RunKeeps | src/axip.c:1777-2252 | Through every run of frames, lookups, sessions and ticks there is one entry for a call at most, and a permanent one without a name stays with its address. |
| AxipPolicy.RunKeepsOnce | src/axip.c:1777-2252 | Through every such run a once entry without a name keeps its address and stays one, as long as its call has an entry. |
| AxipPolicy.PortIsNotKept | src/axip.c:1873-1876 | A frame from the same address clears the port of a permanent entry. |

## Left out

- BuddyAllocator.BuddyAllocator.Realloc: sizes from 2^32 - 7 on are excluded, because
  malloc then gives a block of 16 bytes and the copy runs past it; RequestFitsIff says
  exactly when that happens.
- BuddyAllocator.BuddyAllocator.Free: the pointer is null or that of a block, in use or
  not; a pointer into the middle of a block makes the program read a header that is none.
  What is in a block that was given back while heap debugging is on is not promised.
- Mktime.Time2: months of -24, -36 and so on are excluded, because the program then reads
  past the table of month lengths; the zone has one offset, so the search for a time of
  the other kind of day finds nothing.
- NewsrcFile.SetPosition: where something is unread in the current group, the current article
  has a bit in the array, because the program otherwise reads past the array; RestorePosition
  says exactly when load_groups sees to it. Article 0, which the callers take for failure, is
  not told apart.
- Ndbm.Dbm.Close: writing never fails; the error that is modelled is the one noted before.
- Ndbm.Dbm.Store: the lengths are ints, so no datum is longer than 2^31 - 1 bytes; a file with
  longer fields is not one the program writes.
- Ax25Text.SetCall: atoi is unbounded here; what it does with a number past 2^31 - 1 is not
  defined in C.
- Mktime.Bisect: years are unbounded; for a time_t of up to 56 bits they are ints anyway, as
  YearsFitIff says, provided the fields that are asked for have a year that is one.
- ConversHost.Conversd.HHostCommand: the names of software and capabilities, the refusal of
  hosts of another kind by their software, peers and link quality are not modelled; the best
  other way to a host is a parameter.
- The counters of the allocator are unbounded; calloc and the statistics commands.
- The fields of a route that record what was negotiated with a station, and saving the
  table to a file; loading it can install any chain and is not a step of the model.
- axroute_mac_learn and the routes of Flexnet.
- Counting, filtering and tracing of frames; the negotiation of parameters, the windows and
  retransmission of connected mode (src/lapb.c), header compression.
- A segmenter that runs out of memory while it cuts.
- The loss of a connection between convers hosts, two connections between the same hosts,
  the expiry of records, and round trip times.
- The lines of convers as text: they are values, in the order in which they were sent. The
  list of users is in order of arrival instead of by name.
- make_string_unique, which tries counters until a line is new, and invitations.
- The clock of convers does not run backwards.
- Tables of leap seconds, transitions in zone files, unsigned time_t.
- The additive constants of MD5 are those of the code; that they come from the sine
  function is not shown.
- Lines of .newsrc longer than the buffer, articles with negative numbers, and the dialogue
  with the news server.
- Memory that the ndbm substitute does not get, and opening flags.
- The commands of the sysop on the axip table other than entering an address, and timers of
  name lookups.
- The remaining programs and drivers of the repository.
