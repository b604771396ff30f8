# Apple Media Service client, modelled in Dafny

This project models the client side of Apple's Apple Media Service (AMS) as the
CircuitPython library `adafruit_ble_apple_media` implements it. The client has
three parts.

- **Entity Update decoding into an attribute cache.** Each inbound Entity Update
  notification is `entity id, attribute id, flags, value`. The client stores the
  value under `(entity id, attribute id)` and ignores the flags.
- **Cached attribute reads with sibling-batched requests.** A read runs one
  update step. On a miss it writes one request: the entity id, the requested
  attribute id, then every other attribute id already cached for that entity.
  It marks the key as requested (`None`), runs one more update step and returns
  what is cached.
- **Capability-gated remote commands.** Before each command the client reads at
  most one notification listing the supported command ids. It writes the
  one-byte command only when that list contains it. It does nothing while no
  list has arrived. It raises `UnsupportedCommand` otherwise.

It also models the four playback-state flags read from the playback-info text
`state,rate,elapsed`.

Each characteristic's transport is a `PacketBuffer` object:

- a queue of inbound packets, each at most the characteristic's maximum length;
- a read that copies the oldest packet into the caller's array and returns its
  length, or returns 0 on an empty queue;
- an append-only log of written packets.

The service is a class that holds the two transports, the receive buffers, the
cache and the supported-command list. Its methods are proved against pure
specification functions:

- `Absorb` describes one update step;
- `LookupSpec` describes one attribute read;
- `CommandSpec` describes one command.

The lemmas state the properties of those functions.

Modules:

- `Base`: bytes, errors, results;
- `Transport`: the packet queue and write log;
- `EntityUpdate`: the wire format, the cache and the update step;
- `Siblings`: the request's attribute list;
- `AttributeLookup`: one attribute read;
- `Commands`: the command gate;
- `Playback`: splitting, `int()` and the state flags;
- `AppleMedia`: the attribute-key table and the service class.

Behaviour of the code that the model keeps as it is:

- An Entity Update of exactly 3 bytes is accepted and stores an empty value (adafruit_ble_apple_media.py:98).
- In a request, the requested attribute id comes right after the entity id, and the cached sibling ids follow it (line 113), in the cache's iteration order (taken as insertion order, see "Left out"). For a title miss with artist and album cached, the request is `2, 2, 0, 1`.
- While no supported-command list has arrived, a command returns without writing anything (lines 221-222).
- An update step reads at most one notification (line 96).
- A packet of length 1 or 2 raises "packet too short" out of the read that ran the update step (lines 97-99).
- A first playback-info field that is not an integer makes the flag raise `ValueError` (line 132).

## Model

| member | source | states |
|---|---|---|
| `Transport.PacketBuffer.ReadInto` | adafruit_ble_apple_media.py:96 | A read takes exactly the oldest queued packet into the front of the buffer and returns its length. On an empty queue it returns 0 and changes nothing. The rest of the buffer is untouched. |
| `Transport.PacketBuffer.Write` | adafruit_ble_apple_media.py:117-118 | A write appends exactly the given packet to the outbound log and leaves the inbound queue alone. |
| `Transport.PacketBuffer.Notify` | adafruit_ble_apple_media.py:39-71 | The remote device queues a notification of at most the characteristic's maximum length (128 for Entity Update, 13 for Remote Command). |
| `EntityUpdate.Decode` | adafruit_ble_apple_media.py:97-107 | Decoding fails with "packet too short" exactly when the packet has fewer than 3 bytes. Otherwise re-encoding the decoded header and value gives back the packet. |
| `EntityUpdate.Encode` | adafruit_ble_apple_media.py:102-107 | The notification layout: entity id, attribute id and flags in bytes 0-2, then the value. |
| `EntityUpdate.DecodeEncode` | adafruit_ble_apple_media.py:102-107 | Every notification the remote encodes decodes back to the same key, flags and value. |
| `EntityUpdate.Store.Put` | adafruit_ble_apple_media.py:108 | Dictionary assignment sets exactly that key. A new key goes last in iteration order and an existing key keeps its place. Keys stay distinct and match the dictionary's domain. |
| `EntityUpdate.Absorb` | adafruit_ble_apple_media.py:92-108 | A read of length 0 changes nothing. Length 1 or 2 fails with "packet too short". Length n >= 3 sets `(b0, b1)` to bytes 3..n-1 (empty for n = 3) and leaves every other key alone. No key is ever removed. A key already cached keeps its place in the iteration order and a new key goes last (line 108). |
| `EntityUpdate.AbsorbIgnoresFlags` | adafruit_ble_apple_media.py:100-106 | Two packets that differ only in the flags byte update the cache identically. |
| `EntityUpdate.AbsorbOverwrites` | adafruit_ble_apple_media.py:108 | A later packet for the same key overwrites the value an earlier one stored. |
| `Siblings.AttrsOfMembers` | adafruit_ble_apple_media.py:114-115 | An id is among the entity's cached attribute ids exactly when the key (entity, id) is cached. |
| `Siblings.AttrsOfDistinct` | adafruit_ble_apple_media.py:114-115 | A cache with distinct keys yields distinct attribute ids for one entity. |
| `Siblings.FirstOccurrencesMembers` | adafruit_ble_apple_media.py:115-116 | Dropping repeats keeps exactly the same set of ids. |
| `Siblings.FirstOccurrencesDistinct` | adafruit_ble_apple_media.py:115-116 | After dropping repeats, no id appears twice. |
| `Siblings.FirstOccurrencesOfDistinct` | adafruit_ble_apple_media.py:115-116 | A list with no repeats is left as it is. |
| `Siblings.FirstOccurrencesHead` | adafruit_ble_apple_media.py:113 | Dropping repeats keeps the first element first. |
| `Siblings.SiblingsOfUncachedKey` | adafruit_ble_apple_media.py:112-116 | For a key not in the cache, the sibling list is the requested id followed by every cached id of the entity, in cache order. |
| `Siblings.SiblingIds` | adafruit_ble_apple_media.py:113-116 | The loop returns the requested id first, with no repeats, and holds exactly the requested id and the ids cached for the entity, in cache order of first occurrence. |
| `AttributeLookup.LookupSpec` | adafruit_ble_apple_media.py:110-122 | A key cached before the read causes no request. A written request leaves the key in the cache. A returned value is what the cache holds for the key. The only error is "packet too short". Cache validity is kept and no key is lost. A key that the first update step leaves cached gets exactly that value back, with the cache after that step, one packet consumed and no request. On a miss, two packets are consumed and the request is the sibling request. The cache then holds the key as `None`, overwritten by the second packet's value if that packet has 3 bytes or more. An empty second read returns `None`, and a second read of 1 or 2 bytes fails with "packet too short" (lines 119-122). The key goes last in the cache order, followed by the reply's key if that key is new. A failing first update step writes nothing, leaves the cache as it was and consumes one packet (line 111). |
| `AttributeLookup.LookupMissRequest` | adafruit_ble_apple_media.py:112-118 | On a miss the one request is `[entity, requested id]` followed by the entity's cached attribute ids in cache order. |
| `AttributeLookup.LookupNoReply` | adafruit_ble_apple_media.py:119-122 | A miss writes a request and returns `None` when the second update step reads nothing or a notification for another key. |
| `AttributeLookup.LookupReply` | adafruit_ble_apple_media.py:117-122 | A miss whose second update step reads the reply for the key returns the reply's value, after writing the request and consuming two packets. |
| `AttributeLookup.LookupRequestsOnce` | adafruit_ble_apple_media.py:111-119 | After a read that wrote a request or returned a value, a later read of the same key writes no request, whatever arrived in between. |
| `AttributeLookup.TitleMissRequest` | adafruit_ble_apple_media.py:113-118 | With artist and album cached, a title miss writes the single request `2, 2, 0, 1`. |
| `AttributeLookup.TitleFromNotification` | adafruit_ble_apple_media.py:92-122 | A queued title notification is returned by the title read, with no request written. |
| `Commands.CommandSpec` | adafruit_ble_apple_media.py:212-227 | A non-empty read replaces the supported list with exactly the read bytes. A read of 0 keeps it. The call writes exactly `[id]` iff the id is in the list. It returns without writing iff the list is empty. It raises `UnsupportedCommand` without writing iff the list is non-empty and lacks the id. |
| `Commands.PopulatedListGates` | adafruit_ble_apple_media.py:218-223 | Once a non-empty list is known it stays non-empty, and an id outside it is rejected with no write. |
| `Commands.SupportedListBounded` | adafruit_ble_apple_media.py:213-219 | The supported list never holds more than 13 ids. |
| `Commands.AdvertisedListScenario` | adafruit_ble_apple_media.py:212-227 | With `0, 1, 3, 4` advertised, toggle (2) is rejected with no write and a following play (0) writes the byte 0. |
| `Playback.Split` | adafruit_ble_apple_media.py:132 | Splitting on commas gives at least one part and no part contains a comma. |
| `Playback.JoinSplit` | adafruit_ble_apple_media.py:132 | Joining the parts of a split with commas gives back the text. |
| `Playback.SplitWithoutSeparator` | adafruit_ble_apple_media.py:132 | A text without a comma splits into itself alone. |
| `Playback.SplitAfterPart` | adafruit_ble_apple_media.py:132 | Splitting `p,t`, where p has no comma, gives p followed by the parts of t. |
| `Playback.SplitJoin` | adafruit_ble_apple_media.py:132 | Splitting comma-free parts joined with commas gives back the parts. |
| `Playback.ParseInt` | adafruit_ble_apple_media.py:132 | `int()` fails only with `ValueError`. |
| `Playback.ParseIntAccepts` | adafruit_ble_apple_media.py:132 | `int()` accepts white space, an optional `-` or `+`, one or more decimal digits (leading zeros allowed) and white space, and returns the signed value of the digits. |
| `Playback.ParseDecimalShape` | adafruit_ble_apple_media.py:132 | Once the white space is stripped, a text `int()` accepts is an optional `-` or `+` followed by one or more decimal digits, and its value is the signed value of those digits. |
| `Playback.ParseIntShape` | adafruit_ble_apple_media.py:132 | Every text `int()` accepts has that shape, and its result is the signed value of its digits. |
| `Playback.FormatNat` | adafruit_ble_apple_media.py:132 | The decimal digits of n are a non-empty digit string whose value is n. |
| `Playback.ParseFormat` | adafruit_ble_apple_media.py:132 | `int()` reads back every integer written in decimal. |
| `Playback.StateFlag` | adafruit_ble_apple_media.py:129-133 | A flag is false for absent or empty info. It is true iff the first comma field is the integer equal to the state's constant. It raises `ValueError` iff that field is not an integer. |
| `Playback.AtMostOneFlag` | adafruit_ble_apple_media.py:169-176 | No two of the four flags are true at once. |
| `Playback.StateOf` | adafruit_ble_apple_media.py:169-176 | Each value 0..3 is the constant of a playback state: paused 0, playing 1, rewinding 2, fast-forwarding 3. |
| `Playback.ExactlyOneFlag` | adafruit_ble_apple_media.py:129-133 | When the first field holds 0..3, that state's flag is true and the other three are false. |
| `Playback.InfoField` | adafruit_ble_apple_media.py:140-144 | A playback-info field is absent for absent or empty info. It raises `IndexError` iff the position is past the last field. Otherwise it is the comma field at that position, which holds no comma. |
| `Playback.PlayingExample` | adafruit_ble_apple_media.py:129-144 | For `1,1.0,42.5`, only `playing` is true and the elapsed-time field is `42.5`. |
| `AppleMedia.KeyOf` | adafruit_ble_apple_media.py:166-200 | The attribute-key table puts every named attribute on entity 0, 1 or 2, and no two attributes share a key (the table inverts). |
| `AppleMedia.AppleMediaService.constructor` | adafruit_ble_apple_media.py:203-210 | A new service starts with an empty cache, an empty supported list and empty transports. |
| `AppleMedia.AppleMediaService.Update` | adafruit_ble_apple_media.py:92-108 | One update step consumes one queued packet and changes the cache exactly as `Absorb` says. On "packet too short" the cache is unchanged. Nothing is written. |
| `AppleMedia.AppleMediaService.Get` | adafruit_ble_apple_media.py:110-122 | A read returns, caches, consumes and writes exactly what `LookupSpec` says: no write on a hit and exactly one request on a miss. |
| `AppleMedia.AppleMediaService.ReadAttribute` | adafruit_ble_apple_media.py:166-200 | A named attribute is read through its key from the table. |
| `AppleMedia.AppleMediaService.ReadPlaybackState` | adafruit_ble_apple_media.py:129-133 | A state flag reads the playback info (with all the effects of a read) and applies `StateFlag`; a read error propagates. |
| `AppleMedia.AppleMediaService.ReadPlaybackInfoField` | adafruit_ble_apple_media.py:140-143 | A numeric field reads the playback info and selects the field by position. |
| `AppleMedia.AppleMediaService.SendCommand` | adafruit_ble_apple_media.py:212-227 | Sending a command changes the supported list, the queue and the write log exactly as `CommandSpec` says, with the supported list never above 13 ids. |
| `AppleMedia.AppleMediaService.Play` | adafruit_ble_apple_media.py:229-231 | Sends command id 0. |
| `AppleMedia.AppleMediaService.Pause` | adafruit_ble_apple_media.py:233-235 | Sends command id 1. |
| `AppleMedia.AppleMediaService.TogglePlayPause` | adafruit_ble_apple_media.py:237-239 | Sends command id 2. |
| `AppleMedia.AppleMediaService.NextTrack` | adafruit_ble_apple_media.py:241-243 | Sends command id 3. |
| `AppleMedia.AppleMediaService.PreviousTrack` | adafruit_ble_apple_media.py:245-247 | Sends command id 4. |
| `AppleMedia.AppleMediaService.VolumeUp` | adafruit_ble_apple_media.py:249-251 | Sends command id 5. |
| `AppleMedia.AppleMediaService.VolumeDown` | adafruit_ble_apple_media.py:253-255 | Sends command id 6. |
| `AppleMedia.AppleMediaService.AdvanceRepeatMode` | adafruit_ble_apple_media.py:257-259 | Sends command id 7. |
| `AppleMedia.AppleMediaService.AdvanceShuffleMode` | adafruit_ble_apple_media.py:261-263 | Sends command id 8. |
| `AppleMedia.AppleMediaService.SkipForward` | adafruit_ble_apple_media.py:265-267 | Sends command id 9. |
| `AppleMedia.AppleMediaService.SkipBackward` | adafruit_ble_apple_media.py:269-271 | Sends command id 10. |
| `AppleMedia.AppleMediaService.LikeTrack` | adafruit_ble_apple_media.py:273-275 | Sends command id 11. |
| `AppleMedia.AppleMediaService.DislikeTrack` | adafruit_ble_apple_media.py:277-279 | Sends command id 12. |
| `AppleMedia.AppleMediaService.BookmarkTrack` | adafruit_ble_apple_media.py:281-283 | Sends command id 13. |

## Left out

- Characteristic and service declarations are not modelled: UUIDs, GATT properties and permissions, and the binding to `_bleio.PacketBuffer` (adafruit_ble_apple_media.py:32-85, 160-164). Each bound characteristic is a `PacketBuffer` with an inbound queue and a write log.
- `EntityUpdate.Store.Put`: the model fixes the cache's iteration order to insertion order, as the Python language defines `dict`. CircuitPython's plain `dict` is an unordered hash map, so on the device the loop at line 114 may list the cached sibling ids in another order. The set of ids in a request, and the requested id coming first, hold either way; `Siblings.SiblingIds`, `AttributeLookup.LookupMissRequest` and `AttributeLookup.TitleMissRequest` state the order under the insertion-order rule.
- The Entity Attribute characteristic (lines 74-85) is declared by the source but never used, and is not modelled.
- Notification arrival is the caller's `Notify`. BLE timing, dropped packets and concurrency are not modelled. The inbound queue is unbounded, but the library binds Remote Command with a one-packet buffer (line 51) and Entity Update with an eight-packet buffer (line 71). The model does not capture what those bounded buffers do when they overflow. With one slot, the command channel need not deliver supported lists first in, first out.
- `Transport.PacketBuffer.ReadInto`: the real transport raises when a packet is longer than the buffer. Here every queued packet fits the characteristic's maximum length and each buffer has exactly that length, so this cannot happen.
- `Transport.PacketBuffer.Write` accepts a packet of any length. The transport's outbound size limit is not modelled. A request exceeds it only with more than 126 attribute ids cached for one entity.
- `time.sleep(0.05)` between the two update steps of a miss (line 120) is timing only, and is a no-op here.
- `EntityUpdate.Absorb` stores the value's bytes, not the decoded text. UTF-8 decoding (line 107) and its error on invalid UTF-8 are not modelled.
- `Playback.ParseInt` models `int()` on plain decimal text: white space (space, and tab through carriage return), an optional sign, and ASCII digits. Anything else is a `ValueError` here. The `_` digit separators and any other syntax the runtime's `int()` may accept are not modelled.
- `Playback.InfoField` returns the selected field as text. The `float()` conversion of `playback_rate` and `elapsed_time` (line 143), and its `ValueError`, are not modelled. Nor is the `0` returned for absent info, which is `None` here.
- The buffers `_buffer`, `_command_buffer` and `_cmd` are allocated lazily on first use (lines 94-95, 213-214, 224-225). Here the constructor allocates them.
- The Python descriptor mechanics of the attribute properties are replaced by a generic `Get(key)` and the key table `KeyOf`. The unused field `_register_buffer` is not modelled.
