# Verified model of the lldpctl client

A Rust client for `lldpd`'s control socket, modelled in Dafny. The daemon answers
with its internal C structures, copied as they lie in memory and followed by the
chunks their pointers lead to. This project models the reading and writing of such
payloads, the framing around them, and the sessions that run over a stream of
frames, and proves what they promise.

## How the model is built

The **wire grammar** is a schema. Module `Marshal` has one table, `Fields`, that
says for each C structure what follows it on the wire and in which order. `Walk`
reads any structure by following that table, `Emitter.Emit` writes it. The reader
pads against the whole message, the writer against the chunk it is building, and
every chunk declares the size of its whole subtree, as the original does. A `Tree`
holds a chassis at every use; the wire carries it once, at its first occurrence.
`Agrees` says that equal ids name equal chassis.

The **decoders** are imperative, as in the original. Class `Cursors.Cursor` has one
mutable position; module `Decode` has one method per Rust function, a loop over the
location slots, and a mutable cache of chassis objects. Each method is proved to
return what the schema's reading says, to fail for the same reason, and to leave the
cursor where that reading ends, for every byte string. The schema's reading is then
what the theorems are about.

Module `Meaning` ties what is read to the C declarations: for any struct bytes, ignored
fields included, each part of a result is a declared field, at its computed place and
of its declared width, or hangs off a declared pointer.

| module | what it holds |
|---|---|
| `Bytes`, `Errors`, `Model`, `Raw` | numbers and alignment, errors, result types, struct offsets |
| `Layouts` | the C layout rule; every struct declared field by field, its offsets computed |
| `Declarations` | every struct's size and alignment, nested structs included |
| `Marshal`, `Schemas`, `Unfolding`, `Emitter` | grammar, reader, writer |
| `WellFormed`, `RoundTrip`, `Locality`, `Sharing`, `Counting`, `Chains`, `Bounds` | general theorems about reading |
| `View`, `Meaning`, `Refusals`, `Uses`, `Payload` | what a payload says, which declared field each part of it comes from, why a payload is refused, and theorems about whole payloads |
| `Patches`, `Lists`, `Records` | every list, record and change has a message that decodes to it |
| `Numbering`, `Renumber`, `Sender` | the ids of a message in wire order; every tree has a sequentially numbered one that says the same |
| `Disambiguation`, `LateSlots`, `Skeleton`, `Fallback`, `Misread` | telling the two hardware layouts apart, and exactly when that fails |
| `Cursors`, `Decode`, `Encode`, `Captures` | decoders and request encoders, and two messages of a real daemon |
| `Values`, `Transport`, `Session`, `Async`, `Scripts` | framing, clients, subscriptions, whole runs |
| `EndToEnd` | from the daemon's records to the caller's values |

## Assumptions

Little-endian machine. Struct layouts are those of a 64-bit target; framing and
alignment are proved for pointer widths 4 and 8, sessions for 8. A stream is the
bytes that will arrive, the error met after them, and the bytes sent. Strings are
byte strings.
`Arc<Chassis>` is a heap object with an immutable value, so sharing is equality of
references. A protocol error keeps its reason, not its text.

Where the code and its documentation differ, the model follows the code:

- `src/wire/raw.rs:298-302` says that the inserted field shifts everything by 4
  bytes. It shifts `h_ifname` by 4, and by alignment `h_ifalias` and all after it by 8.
- The repository's `README.md:131-132` says that nothing that changes the daemon's state is
  implemented; `set_port_description` is (`src/client.rs:92-96`).
- `src/transport.rs:77-80` speaks of a fresh connection for each request; a client
  keeps one connection for all of them (`src/client.rs:21-25`).

## What turned out false

"Every message in the newer hardware layout decodes to its own view" does not hold.
`Misread.NewerLayoutCanBeMisread` gives a record, an interface with a name of 13
bytes and a local port with a description of 33 that ends in `@`, whose sequentially
numbered message of 776 bytes the legacy layout also accepts, so that
`decode_hardware` reports an interface without a name.

When it holds is a matter of words of the message, read at the places where the
legacy layout, 8 bytes off, expects its pointers and sizes:

- For records, exactly (`Fallback.NewerRecordExactly`): a record written in the newer
  layout with sequential ids, the struct fields the crate ignores being zero, comes
  back if and only if it is not the case that the local port has no id subtype, the
  interface name is longer than 12 bytes, and the word at 720 is the number of bytes
  from 712 to the end.
- For every message the newer layout accepts, if no legacy slot before the location
  markers is set and the legacy neighbor slot is zero
  (`LateSlots.NewerLayoutExactly`): it comes back if and only if the legacy walk,
  computed from the words it takes for sizes, does not end where the message ends, or
  both readings agree. For one slot alone this is one equation about the word at
  688, 704 or 720 (`OnlyFirstLocation`, `OnlySecondLocation`, `OnlyLastLeaf`).
- If the first slot set leads to no header, or to a size too small for what should be
  there, or if an earlier slot is set and the third id is below 16, or if no slot is
  set, it comes back (`LateSlots.NewerLayoutDecodes`). A sequentially numbered message
  whose local port writes only its bare markers always does
  (`Numbering.BareLocalRoundTrip`).

For every message at all, `Skeleton.NewerLayoutDecided` says the same with the whole
legacy walk, neighbors included, as arithmetic on words.

## Model

| member | source | states |
|---|---|---|
| RoundTrip.TreeRead | src/wire/mod.rs:4-28 | reading inverts writing for every type, tree, starting set of emitted chassis and surrounding bytes: same tree, cache grown by exactly the chassis emitted, position right behind the chunk |
| RoundTrip.RunRead | src/wire/decode.rs:152-189 | the same for the fields behind a struct, in order; padding relative to the chunk equals padding relative to the message |
| RoundTrip.KidRead | src/wire/decode.rs:157-165 | the same for one field: absent, present, a chassis seen before, an embedded struct, the shared port body |
| RoundTrip.MarkedRead | src/wire/cursor.rs:191-202 | an embedded struct is read back from its bare marker and what follows it |
| RoundTrip.PaddedRead | src/wire/cursor.rs:80-83 | a chunk padded relative to its parent is found by a reader that pads relative to the message |
| RoundTrip.LeafRead | src/wire/cursor.rs:96-105 | a leaf with any content reads back, ending at its declared size |
| Payload.MessageRead | src/wire/mod.rs:4-26 | a whole message reads back to its tree and its last byte |
| Payload.EndsAtDeclaredSize | src/wire/mod.rs:10-24 | every serialized chunk is walked to exactly its start plus its declared size, though the walk never skips by it |
| Payload.HardwareRoundTrip | src/wire/decode.rs:277-342 | for any tree with consistent sharing, the message in either layout decodes under it to the tree's view; a legacy message does so through `decode_hardware` |
| Payload.InterfacesRoundTrip | src/wire/decode.rs:29-52 | an interface tree's message decodes to the list it stands for |
| Payload.ChangeRoundTrip | src/wire/decode.rs:350-375 | a change tree's message decodes to the change it stands for |
| Payload.PrefixFree | src/wire/decode.rs:306-315 | under one layout, no accepted message is a proper prefix of another |
| Payload.AcceptedExactly | src/wire/decode.rs:306-315 | an accepted hardware message is rejected after any truncation or extension |
| Payload.TrailingBytesIgnored | src/wire/decode.rs:29-36 | bytes after an interface list or a change notice never alter what it decodes to |
| Locality.WalkLocal | src/wire/cursor.rs:51-57 | a successful read depends only on the bytes before its final position |
| Locality.RunLocal | src/wire/decode.rs:152-189 | the same for the fields behind a struct |
| Locality.StepLocal | src/wire/decode.rs:157-182 | the same for one field, cached chassis included |
| Marshal.Walk | src/wire/cursor.rs:36-105 | total on every byte string: success ends inside the buffer behind at least a header and the struct, failure less than one pointer beyond the end |
| WellFormed.WalkWf | src/wire/cursor.rs:145-161 | whatever bytes arrive, a successful read gives a tree in which a chunk is present exactly where its slot is nonzero |
| Sharing.WalkShares | src/wire/decode.rs:152-165 | over any read the cache only grows, rebinds nothing, gains exactly the ids used, and every use carries the chassis bound to its id |
| Sharing.RunShares | src/wire/decode.rs:152-189 | the same over the fields of a struct |
| Sharing.StepShares | src/wire/decode.rs:157-165 | the same for one field |
| Sharing.ClosedWalk | src/wire/decode.rs:71-140 | strings, addresses, chassis, VLANs, PPVIDs and PIs neither consult nor change the cache |
| Sharing.AgreesGrows | src/wire/decode.rs:157-165 | what agrees with a cache still agrees with any later one |
| Uses.CacheIsExact | src/wire/decode.rs:191-228 | after an accepted hardware message the cache holds exactly the ids the record uses, and each use says what the cache says |
| Uses.HardwareUses | src/wire/decode.rs:277-324 | the ids in a hardware tree are those of its local port and its neighbors, each use faithful to the cache |
| Chains.NestedIsFlat | src/wire/decode.rs:191-204 | the recursive reading of a nested list is the flat one: structs from first to last, then the rest of each from last to first, with one cache threaded through; same value, cache, position and failure |
| Chains.BodiesAppend | src/wire/decode.rs:195-203 | the first element's remaining fields are read after all the others' |
| Bounds.HardwareBound | src/wire/decode.rs:191-204 | an accepted hardware message has its struct, four headers and at least 432 bytes per neighbor: 712 + 432 n in the legacy layout |
| Bounds.InterfacesBound | src/wire/decode.rs:38-52 | an accepted interface list has at least 32 + 48 n bytes |
| Bounds.ListsUnderCap | src/transport.rs:34-36 | under the message cap an accepted message lists at most 1211 neighbors, or 10922 interfaces |
| Bounds.DepthUnderCap | src/transport.rs:34-36 | under the cap, for every payload, accepted or not, and every list of the protocol, from any position: at most 1365 nested calls for neighbors, 7281 for addresses, 13107 for PPVIDs, 10922 for the others |
| Chains.LevelsBound | src/wire/decode.rs:38-140 | for any bytes, every nested call of a chain decoder has used up a whole struct chunk: calls times header and struct is at most what is left of the payload |
| Chains.ListsAreChained | src/wire/decode.rs:38-204 | the six lists of the protocol, and no other type, are read this way |
| Counting.ChunksAreBindings | src/wire/decode.rs:157-165 | over any read, the chassis chunks taken from the wire are exactly the bindings the cache gains |
| Bounds.NeighborChainSpan | src/wire/decode.rs:191-204 | a chain of n ports takes at least 432 n bytes from wherever it starts |
| Bounds.InterfaceChainSpan | src/wire/decode.rs:38-52 | a chain of n interfaces takes at least 48 n bytes from wherever it starts |
| Meaning.NeighborMeaning | src/wire/decode.rs:210-228 | for any struct bytes, ignored fields included: `ttl` is the 16-bit field `p_ttl`, the id subtype `p_id_subtype`, the chassis the one under `p_chassis`; which pointer each string hangs off |
| Meaning.ChassisMeaning | src/wire/decode.rs:91-100 | for any struct bytes: subtype and both capability sets are their declared fields |
| Meaning.ChassisStringsMeaning | src/wire/decode.rs:71-100 | which declared pointer the id, the name, the description, the addresses and each of the seven inventory strings hang off |
| Meaning.AddressMeaning | src/wire/decode.rs:54-69 | for any struct bytes: family and interface index are their declared fields, the octets the first min(size, 16) of the address field |
| Meaning.HardwareMeaning | src/wire/decode.rs:277-324 | for any struct bytes, in either layout: name, alias, address and neighbors, each from its declared field |
| Meaning.LocalMeaning | src/wire/decode.rs:282-294 | the local chassis is there exactly when the embedded port's `p_chassis` is nonzero, and is that one |
| Meaning.ChangeMeaning | src/wire/decode.rs:350-375 | for any struct bytes: kind, interface, alias and neighbor, each from its declared field |
| Meaning.KindMeaning | src/model.rs:80-103 | which of the 2^32 state words is which kind |
| Meaning.InterfaceMeaning | src/wire/decode.rs:38-52 | name and alias, each from its declared field; the name empty if missing |
| Meaning.TextMeaning | src/wire/cursor.rs:172-179 | a text is the body without one final NUL; a body without one is taken whole |
| Refusals.ChunkHolds | src/wire/cursor.rs:80-143 | for any bytes: a chunk's id and content are those at its aligned position, a leaf's as long as declared, a struct's as long as the struct |
| Refusals.ChunkRefused | src/wire/cursor.rs:80-143 | for any bytes: why a chunk cannot be taken (no room for a header, a declared size too small for a leaf or for the struct, no room for the content); a leaf is refused for nothing else |
| Refusals.NotifiedPortRefused | src/wire/decode.rs:359-366 | a notified port with a successor is refused at once; one without a chassis after its fields, unless they fail first |
| Refusals.ChainedPortRefused | src/wire/decode.rs:191-228 | a chained port without a chassis is refused after its successors and its own fields, unless they fail first |
| Refusals.LocalPortRefused | src/wire/decode.rs:282-290 | a local port with a successor is refused right behind its marker |
| Refusals.ReasonsSurface | src/wire/decode.rs:306-315 | the reason a reading fails for is the error of the call; bytes left over after a hardware message are one of their own |
| Records.RecordRoundTrip | src/wire/decode.rs:277-342 | for every record that fits its C fields, with any local port, neighbors, ids (one chassis per id), addresses, optional strings and unsurfaced data, the message decodes to exactly that record, neighbors in list order |
| Fallback.UnsurfacedInvisible | src/wire/decode.rs:102-189 | two sources that differ only in VLAN, PPVID, PI, location and pattern data, and in the local port's own id, come back from `decode_hardware` as the same record, in either layout, the newer one where it is not misleading |
| Fallback.SentRoundTrip | src/wire/decode.rs:277-342 | for every record a sequentially numbered message, in either layout, that decodes under it to the record; a legacy one through `decode_hardware` |
| Fallback.SentDecodes | src/wire/decode.rs:326-342 | the same through `decode_hardware` in both layouts, the newer one where it is not misleading |
| Records.NoticeRoundTrip | src/wire/decode.rs:350-375 | every change, with any state number, has a notice that decodes to it, whatever bytes follow |
| Records.ChassisNodeSays | src/wire/decode.rs:71-100 | every chassis is expressible: its tree is well formed and says that chassis |
| Records.MgmtKidSays | src/wire/decode.rs:54-69 | every list of management addresses with up to 16 octets each is expressible, in order |
| Records.NeighborKidSays | src/wire/decode.rs:191-228 | every list of neighbors is expressible, in order, agreeing with the sender's table |
| Records.PortSays | src/wire/decode.rs:152-189 | every port's chassis, id and description are what its struct and chunks say |
| Records.PaddedName | src/wire/decode.rs:299-304 | a name without NULs is recovered from its fixed-size field, also when it fills the field |
| Lists.ListRoundTrip | src/wire/decode.rs:29-52 | every interface list with any aliases survives the nested form, in order, to the last byte, whatever follows |
| Lists.IfaceKidSays | src/wire/decode.rs:38-52 | the nested chunks of a list say that list |
| Disambiguation.EarlySlotReachesFallback | src/wire/decode.rs:277-342 | if the third chunk's id is below 16 and a legacy pointer slot before the location markers is set, the legacy attempt fails and the newer layout's result is returned |
| LateSlots.QuietMessageReachesFallback | src/wire/decode.rs:306-315 | if no legacy pointer slot is set, the legacy walk ends at exactly 712 while the message has at least 720 bytes, so the exhaustion check rejects it |
| LateSlots.NewerLayoutDecodes | src/wire/decode.rs:335-342 | three classes in which the legacy attempt fails and the newer layout is returned: an early slot set and a small third id, no slot set, the first slot set leading nowhere |
| LateSlots.FirstLateStopsLegacy | src/wire/cursor.rs:80-105 | if the first legacy slot set, of any of the eight from the locations on, leads to no header or to a size too small for its chunk, the legacy attempt fails |
| LateSlots.LegacyAcceptsExactly | src/wire/decode.rs:277-324 | no early slot and no legacy neighbors: the legacy layout accepts if and only if its walk, computed from words of the message, ends where the message does; and the record it then returns |
| LateSlots.NewerLayoutExactly | src/wire/decode.rs:335-342 | for messages without early slots and legacy neighbors, when `decode_hardware` returns the newer layout's view, and what it returns otherwise |
| Skeleton.WalkEnds | src/wire/cursor.rs:36-161 | for every type and every byte string: whether a read succeeds, where it ends and which chassis ids it has met is arithmetic on the words of the payload |
| Skeleton.AcceptedByWords | src/wire/decode.rs:277-324 | a layout accepts a payload if and only if that arithmetic ends at its last byte |
| Skeleton.NewerLayoutDecided | src/wire/decode.rs:335-342 | for every message the newer layout accepts: it comes back as that layout says if and only if the legacy arithmetic misses the message's end, or both layouts say the same |
| LateSlots.OnlyFirstLocation | src/wire/decode.rs:171-173 | the first location slot alone: accepted if and only if the word at 688 is at least 16 and, added to 680 and aligned, leaves exactly two headers |
| LateSlots.OnlySecondLocation | src/wire/decode.rs:171-173 | the second location slot alone: the same with the word at 704, from 696, and one header |
| LateSlots.OnlyLastLeaf | src/wire/decode.rs:171-297 | the third location slot or the alias alone: accepted if and only if the word at 720 is at least 16 and the number of bytes from 712 on |
| LateSlots.ChainEnds | src/wire/decode.rs:116-140 | a VLAN, PPVID or PI chain is read to exactly where the words of the message say, or fails where they do |
| LateSlots.SmallWordsDecode | src/wire/decode.rs:335-342 | words below 16 at the four places where a size could be read settle every case |
| Disambiguation.SubtypeSetsEarlySlot | src/wire/raw.rs:257-352 | a nonzero local port id subtype falls in the slot the legacy layout takes for `p_id` |
| Disambiguation.EarlySlotStops | src/wire/cursor.rs:96-105 | where the next header's size is below 16, the first set slot stops the port body |
| LateSlots.QuietFields | src/wire/decode.rs:166-182 | with no slot set, only the location markers are consumed, one header each |
| Numbering.ThirdChunkIs | src/wire/cursor.rs:59-66 | the chunk at 672 in a newer-layout message is the third written, the first of the local port |
| Numbering.ThirdChunk | src/wire/cursor.rs:59-66 | with sequential ids its id is 3 |
| Numbering.NewerLayoutRoundTrip | src/wire/decode.rs:335-342 | for any tree with sequential ids: its message decodes to its own view in the classes above, in particular with a local id subtype; and, without legacy neighbors, if and only if the legacy walk misses the end or reads the same |
| Numbering.BareLocalRoundTrip | src/wire/decode.rs:166-189 | a sequentially numbered message whose local port writes only its bare markers always decodes to its own view |
| Renumber.NumberShares | src/wire/cursor.rs:62-65 | numbering a tree in wire order keeps it well formed and every shared chassis one tree |
| Renumber.NumberOrigs | src/wire/cursor.rs:62-65 | the ids written are n, n + 1, ... in wire order, a chassis only at its first occurrence |
| Renumber.OrigsFit | src/wire/mod.rs:4-8 | a message has at least 16 bytes for every id on it, so ids do not wrap |
| Sender.NumberSame | src/wire/cursor.rs:62-65 | numbering changes nothing but the numbers |
| Sender.SentSays | src/wire/cursor.rs:62-65 | every hardware tree with consistent sharing has a sequentially numbered one that says the same |
| Fallback.NewerRecordExactly | src/wire/decode.rs:326-342 | for every record, written in the newer layout with sequential ids and with zero in the struct fields the crate ignores: it comes back if and only if it is not misleading (no local id subtype, a name over 12 bytes, the word at 720 equal to the bytes from 712 on); and what comes back otherwise |
| Fallback.StructSlots | src/wire/raw.rs:257-352 | which legacy slots a newer-layout record sets: the early ones exactly by its local id subtype, the alias exactly by a name over 12 bytes, no other |
| Misread.NewerLayoutCanBeMisread | src/wire/decode.rs:335-342 | a concrete record whose sequentially numbered message is misleading: its own layout reads it back, the fallback is not reached, and the result is not the sender's |
| Cursors.Cursor.ReadRaw | src/wire/cursor.rs:36-57 | n bytes if they are there, otherwise truncation and no movement |
| Cursors.Cursor.ChunkHeader | src/wire/cursor.rs:80-90 | the header after padding; on truncation the padding is already skipped |
| Cursors.Cursor.Leaf | src/wire/cursor.rs:96-105 | a leaf of the grammar, with its errors and positions |
| Cursors.ReadChunkPod | src/wire/cursor.rs:151-161 | a struct's bytes, the declared size used only as a lower bound |
| Cursors.ReadOptCString | src/wire/cursor.rs:172-179 | nothing for a zero slot, otherwise the text without one trailing NUL |
| Cursors.ReadOptBytes | src/wire/cursor.rs:183-189 | nothing for a zero slot, otherwise the bytes |
| Cursors.ConsumeSubstructMarker | src/wire/cursor.rs:199-202 | a header, its size unchecked |
| Decode.DecodeInterfaces | src/wire/decode.rs:29-36 | the list the schema's reading finds, or its error |
| Decode.DecodeInterfaceChain | src/wire/decode.rs:38-52 | the interfaces from this position on, same failure, same final position; a call with n chain decoders open, of any lists, starts at least 40 n bytes in |
| Decode.DecodeMgmtChain | src/wire/decode.rs:54-69 | the addresses from this position on, each cut to its 16-byte field; a call with n chain decoders open, of any lists, starts at least 40 n bytes in |
| Decode.DecodeChassis | src/wire/decode.rs:71-100 | the chassis at this position, same failure, same final position |
| Decode.ReadMedInventory | src/wire/decode.rs:81-89 | the seven inventory strings in wire order |
| Decode.DecodeMedLocationMarker | src/wire/decode.rs:105-111 | one marker, and its data when there is any |
| Decode.SkipLocations | src/wire/decode.rs:171-173 | the loop over the location slots walks the three embedded structs |
| Decode.SkipChains | src/wire/decode.rs:174-182 | the three unsurfaced chains are walked to their end |
| Decode.DiscardVlanChain | src/wire/decode.rs:116-123 | walked to its end, same failures |
| Decode.DiscardPpvidChain | src/wire/decode.rs:125-131 | walked to its end, same failures |
| Decode.DiscardPiChain | src/wire/decode.rs:133-140 | walked to its end, same failures |
| Decode.ResolveChassis | src/wire/decode.rs:157-165 | no object for zero, the cached object for a known id, else a fresh object bound to the id; earlier bindings kept; one decode per cached id |
| Decode.DecodePortFields | src/wire/decode.rs:152-189 | the port's fields with the cache's object in place of the id; cache and cursor as the schema's reading leaves them |
| Decode.BuildNeighbor | src/wire/decode.rs:210-228 | the neighbor, or the demand for a chassis |
| Decode.DecodeNeighborChain | src/wire/decode.rs:191-204 | the neighbors in list order, each with the object bound at its id's first visit; a call with n chain decoders open, of any lists, starts at least 40 n bytes in |
| Decode.ReadHardwareFields | src/wire/decode.rs:282-323 | local port, neighbors, alias and name, with objects in place of ids |
| Decode.DecodeHardwareAs | src/wire/decode.rs:277-324 | one layout: result and error as the schema's reading; two ports hold one object exactly when their ids are equal; objects bound exactly to the ids used, as many as chassis chunks taken from the wire |
| Decode.DecodeHardware | src/wire/decode.rs:335-342 | the first layout's result if it fits, else the second's if that fits, else the first one's error; sharing and objects as for one layout |
| Decode.DecodeNotifiedPort | src/wire/decode.rs:359-366 | a notified port that is not chained and has a chassis, or the reason it is not |
| Decode.DecodeNeighborChange | src/wire/decode.rs:350-375 | result and error as the schema's reading, the neighbor holding the object for its id |
| Decode.NameLength | src/wire/decode.rs:299-303 | the position of the first NUL of the field, or its length |
| Decode.ObjectsAreExact | src/wire/decode.rs:157-165 | objects that mirror a faithful cache are shared exactly as the ids are |
| Values.DetailsByValue | src/model.rs:31-49 | read through its objects, a result says what the wire said at each id |
| Values.ChangeByValue | src/model.rs:66-80 | the same for a change |
| Layouts.LayoutIsSound | src/wire/raw.rs:6-10 | for any field list and any field: aligned, inside a size that is a multiple of the strictest alignment |
| Layouts.FieldsAreDisjoint | src/wire/raw.rs:6-10 | for any field list: fields are in order and do not overlap |
| Layouts.RunIsDense | src/wire/raw.rs:6-10 | in any field list, a run of equal fields is laid out without gaps from the next boundary on |
| Layouts.PodRoundTrip | src/wire/cursor.rs:114-143 | reading a field inverts writing the struct, for any field list and fitting values |
| Declarations.SizesAreComputed | src/wire/raw.rs:29-392 | for every struct, declared field by field, nested structs included: the size used by the reader is what the layout rule gives, and its alignment is 8 |
| Declarations.NestedTypesAreComputed | src/wire/raw.rs:191-352 | the sizes and alignments of the structs nested in a port, and of the port nested in the hardware structs, are those of their own declarations |
| Layouts.HardwareLayout1 | src/wire/raw.rs:257-295 | the offsets of `h_lport` and `h_rports`, size 632 and alignment 8, from the declaration |
| Layouts.FpHardwareLayout0 | src/wire/raw.rs:313-352 | the inserted field moves `h_ifname` to 84, `h_ifalias` to 104, `h_lladdr` to 112 |
| Layouts.FpHardwareLayout1 | src/wire/raw.rs:313-352 | and `h_lport` to 248, `h_rports` to 616, size 640, alignment 8 |
| Layouts.PortLayout2 | src/wire/raw.rs:191-229 | the offsets of the three last list heads, each a field of its own, size 368 and alignment 8 |
| Layouts.ChassisLayout1 | src/wire/raw.rs:157-181 | the offsets of the seven inventory strings, each a field of its own, size 144 and alignment 8 |
| Layouts.PortSetLayout | src/wire/raw.rs:380-392 | the request struct's offsets, size 80 and alignment 8 |
| Encode.EncodeInterfaceNameRequest | src/wire/mod.rs:40-52 | the bytes the grammar gives a single text chunk with id 1 |
| Encode.PushStringChunk | src/wire/mod.rs:109-118 | appends padding relative to the buffer, then the chunk; nothing before it changes |
| Encode.EncodeSetPortDescriptionRequest | src/wire/mod.rs:70-102 | the bytes the grammar gives the request tree, although padding was computed before the header was put in front |
| Encode.SetPortInverts | src/wire/mod.rs:70-118 | for any two byte strings, embedded and trailing NULs included: the struct as chunk 1 and both strings as chunks 2 and 3 read back, nothing is left over, the root declares the message's length |
| Encode.SetPortStruct | src/wire/mod.rs:79-91 | in the request for any two texts: 2 at `ifname`, 3 at `local_descr`, -1 at `vlan_tx_enabled`, and zero in every other byte of the struct |
| Encode.PortSetField | src/wire/mod.rs:79-91 | every field of the request struct reads back as the value put there |
| Encode.NameRequestBytes | src/wire/mod.rs:40-52 | the request's bytes: id 1, the declared size, the name, one NUL |
| Captures.SetPortIsCaptured | src/wire/mod.rs:132-149 | for eth0 and test-desc-XYZ the request is, byte for byte, the 150 bytes the daemon's own client was seen to send |
| Captures.ListIsDecoded | src/wire/decode.rs:519-537 | the 173 bytes a daemon was seen to send decode to eth0 and wlan0, without aliases |
| Encode.NameRequestInverts | src/wire/mod.rs:40-52 | the daemon reads back the exact name and nothing else |
| Bytes.AlignUpIsLeast | src/transport.rs:52-54 | the least multiple of any positive alignment that is not below the input |
| Bytes.LeOfToLe | src/transport.rs:61-62 | reading inverts writing for every number that fits its bytes |
| Transport.HeaderIsTwoPointers | src/transport.rs:46-48 | on both widths, two pointers long |
| Transport.HeaderLayout | src/transport.rs:56-64 | four bytes of type, zero padding, one pointer of length |
| Transport.AnyHeader | src/transport.rs:66-72 | whatever its padding holds: the type is the first four bytes, the length the last pointer |
| Transport.EncodeHeader | src/transport.rs:56-64 | the buffer filled in place is type, zero padding, length |
| Transport.HeaderRoundTrip | src/transport.rs:56-72 | decoding inverts encoding for every 32-bit type code and every length the width can hold |
| Transport.ReadMessage | src/transport.rs:98-128 | outcome and new position of one read on any stream: short reads, cap, refusal, mismatch, payload |
| Transport.Request | src/transport.rs:81-86 | the request's frame is appended to what was sent, then one message is read |
| Transport.RecvNotification | src/transport.rs:91-93 | one message is read, nothing is sent |
| Transport.OutcomeMeaning | src/transport.rs:113-128 | a frame is refused exactly by type 0 and accepted exactly by the type expected; any other names what was expected and what came |
| Transport.FrameRead | src/transport.rs:98-128 | a complete frame within the cap is consumed exactly, whatever comes of it |
| Transport.PaddedFrameRead | src/transport.rs:98-128 | the same for any header that decodes to the frame's type and length |
| Transport.OverCapRead | src/transport.rs:102-106 | a header that announces more than the cap is that error, and nothing behind it is read |
| Transport.PartialFrame | src/transport.rs:98-112 | any proper prefix of such a frame at the end of the stream reads as the stream's ending |
| Transport.FramingKept | src/transport.rs:98-128 | n reads with any expectations consume exactly the first n frames, the k-th answered by the k-th, whatever comes of each |
| Transport.KthFrame | src/transport.rs:98-128 | a read at the k-th boundary is answered by the k-th frame and ends at the next boundary |
| Session.Client.Interfaces | src/client.rs:47-50 | asks once, reads once, returns what the payload says or the read's error |
| Session.Client.Interface | src/client.rs:58-63 | the same for one interface by name, sharing exact |
| Session.Client.AllInterfaces | src/client.rs:69-79 | result, position and everything sent are those of `BatchAt`: stop at the first answer that is an error other than a refusal, keep the rest in order; each record returned shares its chassis objects exactly as its own payload shares ids |
| Session.Client.SetPortDescription | src/client.rs:92-96 | sends the encoded request and reads one reply: success exactly if the reply is accepted, otherwise its error |
| Session.Client.Subscribe | src/client.rs:108-113 | hands on the same stream, positioned after the reply |
| Session.Subscription.Next | src/subscription.rs:38-44 | one message per call; the iteration ends if and only if the read met the end of the stream, and every other error is an item |
| Session.FirstFatal | src/client.rs:73-76 | the first result that is an error other than a refusal, if any |
| Scripts.BatchOverScript | src/client.rs:69-79 | on every script of frames with a reply to each request: success exactly when no answer is fatal, then 1 + n frames used, every interface asked about, and the surviving answers returned; otherwise the first fatal answer, nothing after its frame read and no later interface asked about |
| Scripts.BatchRunsOut | src/client.rs:69-79 | on every script that runs out, with a frame cut short or not: the first fatal answer if there is one, else the stream's ending, everything that arrived read and one more request sent than answered |
| Scripts.KeptIsSubsequence | src/client.rs:70-76 | the output is the order-preserving subsequence of all the successes |
| Scripts.FatalReply | src/client.rs:72-77 | for any outcome of a read: a batch goes on past a refusal and past a payload that decodes, and past nothing else |
| Scripts.FatalFrame | src/client.rs:72-77 | the same by the frame's type code |
| Scripts.SetPortAnswer | src/client.rs:92-96 | on a complete reply: success if and only if its type is 8, refused if and only if it is 0 |
| Scripts.ListRefused | src/client.rs:47-50 | a refused list is an error, not an empty list |
| Scripts.RejectionIsTypeNone | src/transport.rs:113-119 | an answer is skipped exactly when its frame has type 0 |
| Scripts.SuccessUsesWholeFrames | src/client.rs:69-79 | on any byte stream whatever, a batch that succeeds used exactly one complete frame per request it sent |
| Scripts.QueriesAsk | src/client.rs:58-72 | the daemon, reading what a batch sends, finds the request for the list, then in the k-th query the name of the k-th interface listed, exactly |
| Scripts.FrameByFrame | src/transport.rs:98-128 | successive reads of one kind go from boundary to boundary |
| Scripts.SubscriptionConserves | src/subscription.rs:38-44 | n frames and a proper prefix of another give n items in order, each its own frame's; after them nothing if the stream ended, and that error if it broke, ever after |
| Scripts.OverCapIsAnItem | src/transport.rs:102-106 | a notification that announces more than the cap is an item, with that error |
| Scripts.FrameIsAnItem | src/subscription.rs:38-44 | a decode error, a refusal and a mismatch are items, not the end |
| EndToEnd.BatchDelivers | src/client.rs:65-79 | whatever the daemon lists and then refuses, and in whichever layout it answers (the newer one where it is not misleading), the caller gets exactly the other records, in list order, the stream is read to its end, and what was sent asks for the list and then for each interface by name |
| EndToEnd.FeedDelivers | src/subscription.rs:8-44 | whatever changes are announced before the daemon goes away, the iterator yields exactly those, in order, and then ends, or reports the error the connection broke with |
| Async.Receive | src/async_client.rs:135-157 | the same outcome and position as the blocking read |
| Async.Send | src/async_client.rs:118-123 | the same bytes sent, outcome and position as the blocking request |
| Async.AwaitNotification | src/async_client.rs:125-127 | the same outcome and position as the blocking call |
| Async.AsyncClient.Interfaces | src/async_client.rs:45-48 | as the blocking client |
| Async.AsyncClient.Interface | src/async_client.rs:52-56 | as the blocking client |
| Async.AsyncClient.AllInterfaces | src/async_client.rs:61-71 | the same `BatchAt`, so both clients agree on every script: result, position, requests, and the sharing inside each record |
| Async.AsyncClient.SetPortDescription | src/async_client.rs:80-84 | as the blocking client: success exactly if the reply is accepted, otherwise its error |
| Async.AsyncClient.Subscribe | src/async_client.rs:89-94 | as the blocking client |
| Async.AsyncSubscription.NextChange | src/async_client.rs:109-116 | at every step the blocking iterator's item: no change if and only if the read met the end of the stream |

## Left out

- Sockets, connecting, paths, blocking, scheduling and the `Send` guard: a stream is a byte sequence with a position, and an await is an ordinary call.
- Replies that depend on the requests sent: a stream's bytes are fixed beforehand, and the theorems hold for every choice of them.
- Write errors: every write succeeds.
- Replacement of invalid UTF-8 (`src/wire/cursor.rs:177-178`, `src/wire/decode.rs:304`): strings stay byte strings.
- Subtype enums, capability bits, address conversion, `*_str` accessors and message texts: subtypes and capabilities stay numbers, errors keep their reason.
- Big-endian targets, and struct layouts of 32-bit targets, where the alignment of `u64` varies.
- Frames that announce more than the cap: the read fails before the payload is drained (`src/transport.rs:102-106`), so nothing is claimed about the stream after it.
- Decode.DecodeHardwareAs: the cursor and the cache after a failed attempt are thrown away, as in the original, and only the error is specified.
- LateSlots.NewerLayoutExactly: the closed forms stop where the legacy layout would read neighbors, or an early slot is set and the third id is 16 or more; `Skeleton.NewerLayoutDecided` covers these messages, with an arithmetic as long as the chain.
- Fallback.NewerRecordExactly: struct fields the crate never looks at are written as zero; `Numbering.NewerLayoutRoundTrip`, `LateSlots.NewerLayoutExactly` and `Skeleton.NewerLayoutDecided` cover arbitrary ones. A nonzero id length, for one, sets an early slot.
- Records.RecordRoundTrip: struct fields the crate never looks at are written as zero; `Payload.HardwareRoundTrip` and module `Meaning` cover arbitrary ones.
- The memory a level of recursion takes: only the number of levels is bounded, for any payload (`Chains.LevelsBound`, and the `level` argument of the chain decoders).
- `read_pod`'s own length check, which cannot fail after `read_raw` has returned `n` bytes.
- `decode_chassis`, `decode_port_fields` and `decode_hardware_as` are each split into smaller methods (inventory, chassis lookup, unsurfaced chains, fields after the struct) with the same reads in the same order.
- Parsing by the daemon of anything but the two request payloads.
