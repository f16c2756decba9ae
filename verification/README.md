# Beacon presence pipeline and NDEF message container — a Dafny model

This project models three pure components of the SimpleSensor collection
modules and proves properties of them.

- **Beacon scan-response decoder** (`BeaconDecoder`, `Bytes`): the BlueGiga
  handler `eventScanResponse`. It takes one raw advertisement
  (`data`, `sender`, `rssi`) and the BTLE configuration. Frames of 15 bytes or
  fewer are ignored. Major and minor are big-endian 16-bit values from bytes
  25/26 and 27/28, and each becomes 0 when the frame is too short to index
  both of its bytes. An inclusive major/minor range filter follows. The UUID
  (`data[9:25]`) and the reversed sender address are rendered as upper-case hex.
  The tx-power byte 29 is read as a two's-complement value. At most one
  `DetectedClient` is put on the queue.
- **Presence event manager** (`EventManager`). It is a state transformer over
  the registry (a map keyed by beacon address), the new-client and
  removed-client audit counters, and the outbound message queue. It models the
  lookup-then-insert-or-update branch, the "arrival before departure" choice of
  at most one message per detection, `sendEventToController`, the removal
  callback fired by the registry's sweep, and the counters that wrap back to 0
  past 1,000,000. The registered-client policy is a `Policy` value of function
  fields, so every property holds for any policy. That policy covers when to
  announce arrival or departure, how a detection refreshes a client, and what
  extended data a message carries.
- **NDEF message container** (`NdefMessage`): `nfc.ndef.Message`. It is a
  list of records with append, extend, insert, pop, item access, `type`,
  `name` and length. Its serialiser sets the Message Begin flag on the first
  record and the Message End flag on the last, as section 3.2 of the NFC Forum
  NDEF Technical Specification lays out. Its parser requires MB on the first
  record and reads until a record with ME.

Modelling choices:

- Bytes are a `byte` newtype (0..255).
- Python's `|` on integers is modelled bit by bit (`Bytes.BitOr`).
- Timestamps are opaque integers carried by the client (`lastRegisteredTime`).
- Exceptions become explicit outcomes. Where an exception leaves a changed
  state behind, the outcome carries that state: `extend` raising part-way and
  `registerClients` stopping at a raise. The other failures carry the unchanged
  state, or no state at all, because nothing had changed when they were raised.
- The registry class is not part of this model. Its `updateRegisteredClient`
  is modelled as replacing an existing record and leaving an absent key
  absent. Its `addNewRegisteredClient` is modelled as a map insertion that
  fires the added-callback (`newClientRegistered`).
- The record class is not part of this model. A serialised message is the
  sequence of records written in order, and the parser reads such a sequence.

Two consequences of the code are worth stating:

- The length guard at `btleThread.py:49` checks only `len(data) > 15`, and byte
  29 is read without a guard at `btleThread.py:66`. So a frame of 16–29 bytes
  that passes the range filter raises `IndexError` instead of producing a
  detection. This includes frames whose major and minor were defaulted to 0.
  It is modelled as `TxPowerIndexError`.
- Whether removal announces a departure is decided only by the client's
  `sweepShouldSendClientOutEvent()` (`eventManager.py:78`). That method stays an
  uninterpreted policy here.

## Model

| member | source | states |
|---|---|---|
| `BeaconDecoder.EventScanResponse` | collection_modules/btle_beacon/devices/bluegiga/btleThread.py:46-90 | Frames of length ≤ 15 give no detection. A detection occurs exactly when the frame has more than 29 bytes and the big-endian major (bytes 25,26) and minor (bytes 27,28) pass the inclusive range filter. The IndexError occurs exactly when a 16–29 byte frame passes the filter with the major and minor it decodes. Each of these is 0 when its bytes are out of range, and for 27–29 byte frames the major (and at 29 bytes the minor) is the real decoded value. A detection's udid parses back to `data[9..25]`, its beaconMac parses back to the reversed sender, its tx power re-encodes to byte 29, and its rssi is passed through verbatim |
| `BeaconDecoder.MajorNumber` | collection_modules/btle_beacon/devices/bluegiga/btleThread.py:50-54 | major = data[25]·256 + data[26] when index 26 exists, 0 otherwise; always in [0, 65535] |
| `BeaconDecoder.MinorNumber` | collection_modules/btle_beacon/devices/bluegiga/btleThread.py:56-60 | minor = data[27]·256 + data[28] when index 28 exists, 0 otherwise; always in [0, 65535] |
| `BeaconDecoder.HandleScanResponse` | collection_modules/btle_beacon/devices/bluegiga/btleThread.py:86-90 | On success the queue is the old queue plus the decoded client exactly when the handler detects one, and is unchanged otherwise. A short frame leaves the queue unchanged, and the call fails exactly on the tx-power IndexError, with that error |
| `BeaconDecoder.DetectionShape` | collection_modules/btle_beacon/devices/bluegiga/btleThread.py:63-71 | An emitted detection has a 32-digit udid, a beaconMac of 2·\|sender\| digits, major/minor in [0, 65535] and tx power in [-128, 127] |
| `BeaconDecoder.UdidLength` | collection_modules/btle_beacon/devices/bluegiga/btleThread.py:63 | With Python slice semantics the udid has 2·max(0, min(\|data\|, 25) − 9) digits |
| `BeaconDecoder.DefaultedZerosReachTxPowerError` | collection_modules/btle_beacon/devices/bluegiga/btleThread.py:49-66 | A 16–26 byte frame decodes to major = minor = 0; if the ranges admit 0 it passes the filter and raises on byte 29, so nothing is queued |
| `BeaconDecoder.OutOfRangeDropped` | collection_modules/btle_beacon/devices/bluegiga/btleThread.py:62 | A full frame outside the configured range is dropped silently and the queue is unchanged |
| `Bytes.ByteHex` | collection_modules/btle_beacon/devices/bluegiga/btleThread.py:63 | `'%02X' % b` is two upper-case hex digits whose value is b |
| `Bytes.HexOf` | collection_modules/btle_beacon/devices/bluegiga/btleThread.py:63-65 | The joined rendering has two upper-case hex digits per byte |
| `Bytes.HexRoundTrip` | collection_modules/btle_beacon/devices/bluegiga/btleThread.py:63-65 | Parsing the rendering gives back the bytes |
| `Bytes.UnhexCanonical` | collection_modules/btle_beacon/devices/bluegiga/btleThread.py:63-65 | Every parsable upper-case hex string is the rendering of the bytes it parses to |
| `Bytes.HexInjective` | collection_modules/btle_beacon/devices/bluegiga/btleThread.py:65 | Distinct addresses render to distinct beaconMac keys |
| `Bytes.Reverse` | collection_modules/btle_beacon/devices/bluegiga/btleThread.py:65 | `sender[::-1]` has the same length, with element i equal to element \|s\|−1−i |
| `Bytes.ReverseInvolution` | collection_modules/btle_beacon/devices/bluegiga/btleThread.py:65 | Reversing twice gives back the address |
| `Bytes.PySlice` | collection_modules/btle_beacon/devices/bluegiga/btleThread.py:63 | `s[lo:hi]` never fails, has max(0, min(hi, \|s\|) − lo) elements, and element i is s[lo + i] |
| `Bytes.ToSigned` | collection_modules/btle_beacon/devices/bluegiga/btleThread.py:66-71 | The tx power lies in [-128, 127] and is congruent to the raw byte modulo 256 |
| `Bytes.ToUnsigned` | collection_modules/btle_beacon/devices/bluegiga/btleThread.py:68-71 | A signed 8-bit value is encoded as itself when non-negative and as value + 256 when negative |
| `Bytes.SignedRoundTrip` | collection_modules/btle_beacon/devices/bluegiga/btleThread.py:68-71 | Encoding any v in [-128, 127] as a byte and decoding it returns v |
| `Bytes.UnsignedRoundTrip` | collection_modules/btle_beacon/devices/bluegiga/btleThread.py:68-71 | Decoding a byte and re-encoding it returns the byte |
| `Bytes.BitOrDisjoint` | collection_modules/btle_beacon/devices/bluegiga/btleThread.py:51 | Or-ing a value below 2^k into a multiple of 2^k is addition |
| `Bytes.Be16` | collection_modules/btle_beacon/devices/bluegiga/btleThread.py:51 | `lo \| (hi << 8)` equals hi·256 + lo and lies in [0, 65535] |
| `EventManager.Bump` | collection_modules/btle_beacon/eventManager.py:68-72 | A counter step gives 0 exactly when the old value exceeds 1,000,000, and old + 1 otherwise; the result never exceeds 1,000,001 |
| `EventManager.CounterFromZero` | collection_modules/btle_beacon/eventManager.py:68-72 | Started from 0, the counter after k events is k mod 1,000,002, so it stays in [0, 1,000,001] |
| `EventManager.InitBounded` | collection_modules/btle_beacon/eventManager.py:14-15 | Both counters start at 0 and are within bounds |
| `EventManager.WriteBack` | collection_modules/btle_beacon/eventManager.py:111-112 | Updating a client replaces only its own record and never adds or removes keys |
| `EventManager.WriteBackIdempotent` | collection_modules/btle_beacon/eventManager.py:111-112 | Writing the same client back twice leaves the registry as writing it once |
| `EventManager.NewClientRegistered` | collection_modules/btle_beacon/eventManager.py:64-72 | The added-callback advances only the new-client counter, with the wrap rule |
| `EventManager.AddNewRegisteredClient` | collection_modules/btle_beacon/eventManager.py:41 | Insertion adds exactly the new key, stores the client and keeps every other record. It advances the new-client counter and leaves the outbox and the remove counter unchanged |
| `EventManager.SendEventToController` | collection_modules/btle_beacon/eventManager.py:87-114 | Exactly one message is appended. It has topic = event type, sender id = CollectionPointId, sender type = GatewayType, timestamp = the client's lastRegisteredTime, and extended data from the unflagged client. The send sets the in-flag for clientIn and the out-flag for clientOut and changes nothing else in the client. The flagged client is written back under its key, and the counters are unchanged |
| `EventManager.Announce` | collection_modules/btle_beacon/eventManager.py:34-39 | The if/elif choice appends the arrival message when `shouldSendClientInEvent` holds, otherwise the departure message when `shouldSendClientOutEvent` holds, and otherwise nothing. The client comes back flagged for the one message sent. The registry changes only by writing that flagged client back under an existing key, and the counters are unchanged |
| `EventManager.RegisterDetectedClient` | collection_modules/btle_beacon/eventManager.py:23-54 | An unknown address under a non-`btle` interface type raises with the state unchanged, and no other call raises. Otherwise the keys become the old keys plus the address, every other record is unchanged, and at most one message is appended. The new-client counter advances exactly when the address was unknown, and the remove counter never changes |
| `EventManager.ArrivalBeforeDeparture` | collection_modules/btle_beacon/eventManager.py:34-52 | The outbox grows by exactly the arrival message when the policy asks for one, otherwise by the departure message when asked, otherwise by nothing. The stored client carries the flag of that one message |
| `EventManager.NewClientAnnouncedBeforeInsert` | collection_modules/btle_beacon/eventManager.py:34-41 | For an unknown address the message is enqueued while the registry is still without the address, so the write-back finds nothing. The flagged client is then inserted and the counter advanced |
| `EventManager.OtherAddressesUntouched` | collection_modules/btle_beacon/eventManager.py:25-54 | A detection never adds, removes or changes the record of any other address |
| `EventManager.RegisterClients` | collection_modules/btle_beacon/eventManager.py:56-58 | Registering a list appends at most one message per detection, loses no key and leaves the remove counter alone |
| `EventManager.RegisterClientsSnoc` | collection_modules/btle_beacon/eventManager.py:56-58 | Registering a list and then one more detection is the same as registering the extended list (a left fold, in order) |
| `EventManager.RegisterClientsLoop` | collection_modules/btle_beacon/eventManager.py:56-58 | The `for` loop over the detections computes the fold of `registerDetectedClient`, stopping at the first raise |
| `EventManager.RemovedRegisteredClient` | collection_modules/btle_beacon/eventManager.py:74-85 | The removal callback appends one clientOut message for the removed client exactly when `sweepShouldSendClientOutEvent` holds, and nothing otherwise. It always advances the remove counter with the wrap rule and never touches the new-client counter. A removed key stays absent. If the key is still present, the registry is unchanged when no message is sent, and otherwise holds the client flagged for departure under that key |
| `EventManager.GetEventAuditData` | collection_modules/btle_beacon/eventManager.py:60-62 | The audit data reports the two counters, and the manager is left as it was |
| `EventManager.CountersStayBounded` | collection_modules/btle_beacon/eventManager.py:64-85 | From bounded counters, registering any list of detections and the removal callback keep both counters in [0, 1,000,001] |
| `NdefMessage.Normalize` | collection_modules/nfc_bcard_reader/nfc/ndef/message.py:49-52 | MB is set on exactly the first record and ME on exactly the last, so a single record carries both. All others have both cleared, and type, name and data are untouched in order |
| `NdefMessage.ToBytes` | collection_modules/nfc_bcard_reader/nfc/ndef/message.py:47-63 | The stream is the re-flagged records in order. An empty message writes zero records, and the message's own records are re-flagged in place |
| `NdefMessage.WriteIdempotent` | collection_modules/nfc_bcard_reader/nfc/ndef/message.py:47-54 | Serialising an already-serialised message changes nothing |
| `NdefMessage.WriteKeepsContent` | collection_modules/nfc_bcard_reader/nfc/ndef/message.py:47-54 | Serialising keeps the length, the type and the name |
| `NdefMessage.ReadUntilEnd` | collection_modules/nfc_bcard_reader/nfc/ndef/message.py:43-44 | Reading stops at the first record with ME, which is the last record read, and returns the rest of the stream untouched. It fails exactly when no record carries ME |
| `NdefMessage.Read` | collection_modules/nfc_bcard_reader/nfc/ndef/message.py:36-45 | A first record without MB raises FormatError, and every other failure is the end of the stream. A parse succeeds exactly when the first record has MB and some record has ME. A successful parse is a non-empty prefix of the stream that begins with MB and ends at its first ME |
| `NdefMessage.ReadWriteRoundTrip` | collection_modules/nfc_bcard_reader/nfc/ndef/message.py:36-54 | Parsing what a non-empty message writes, with anything after it, gives back the written message and the trailing stream |
| `NdefMessage.New` | collection_modules/nfc_bcard_reader/nfc/ndef/message.py:21-34 | No arguments give an empty message. A single record gives the message holding just that record, and a single non-record object raises TypeError. A single list succeeds exactly when all its elements are records, holds them in order, and otherwise raises TypeError. A single `bytearray` or `io.BytesIO` gives the message the parser reads, or the parser's error. Several arguments succeed exactly when all are records, and the message then holds them in order; otherwise they raise TypeError |
| `NdefMessage.Append` | collection_modules/nfc_bcard_reader/nfc/ndef/message.py:96-102 | A record is added at the end and the length grows by one. A non-record raises TypeError and leaves the message unchanged |
| `NdefMessage.Extend` | collection_modules/nfc_bcard_reader/nfc/ndef/message.py:104-112 | Records are appended in order. At the first non-record, at position k, TypeError is raised with exactly the first k records appended |
| `NdefMessage.GetItem` | collection_modules/nfc_bcard_reader/nfc/ndef/message.py:84-85 | Indexing succeeds exactly for positions in [−n, n) and returns the record at that position, counting negative positions from the end; other positions raise IndexError |
| `NdefMessage.SetItem` | collection_modules/nfc_bcard_reader/nfc/ndef/message.py:87-91 | A value that is neither a record nor an iterable of records raises TypeError, and a bad position raises IndexError, both leaving the message unchanged. A record at a valid position always succeeds, only that position changes, and reading it back gives the record |
| `NdefMessage.Pop` | collection_modules/nfc_bcard_reader/nfc/ndef/message.py:126-131 | Popping succeeds exactly for positions in [−n, n). It returns the record there and removes it, keeping the order of the rest, so the length shrinks by one; other positions raise IndexError |
| `NdefMessage.PopDefault` | collection_modules/nfc_bcard_reader/nfc/ndef/message.py:126-131 | `pop()` removes the last record, and raises on an empty message |
| `NdefMessage.InsertAsWritten` | collection_modules/nfc_bcard_reader/nfc/ndef/message.py:114-124 | As written, `insert(i, r)` behaves exactly like `append(r)` whatever i is |
| `NdefMessage.InsertAsWrittenIgnoresPosition` | collection_modules/nfc_bcard_reader/nfc/ndef/message.py:114-124 | As written, `insert(0, b)` on the message `[a]` does not put b first |
| `NdefMessage.Insert` | collection_modules/nfc_bcard_reader/nfc/ndef/message.py:114-120 | As documented, a record is always inserted, before the clamped position, with the records before and after it unchanged. A non-record raises TypeError |
| `NdefMessage.InsertAsDocumented` | collection_modules/nfc_bcard_reader/nfc/ndef/message.py:115-119 | `insert(0, r)` prepends, and `insert(len, r)` equals `append(r)` |
| `NdefMessage.PopInsertRoundTrip` | collection_modules/nfc_bcard_reader/nfc/ndef/message.py:114-131 | Popping a record and inserting it back at its position restores the message |
| `NdefMessage.Length` | collection_modules/nfc_bcard_reader/nfc/ndef/message.py:81-82 | `len(message)` is the number of records: every position below it can be indexed and the position equal to it cannot |
| `NdefMessage.Type` | collection_modules/nfc_bcard_reader/nfc/ndef/message.py:133-138 | The type is None exactly for an empty message, and otherwise the first record's type |
| `NdefMessage.Name` | collection_modules/nfc_bcard_reader/nfc/ndef/message.py:140-145 | The name is None exactly for an empty message, and otherwise the first record's name |
| `NdefMessage.AppendKeepsTypeAndName` | collection_modules/nfc_bcard_reader/nfc/ndef/message.py:81-102 | Appending to a non-empty message grows its length by one and keeps its type and name |

## Left out

- `BtleTestMode` debug logging in the scan handler, and all other logging, are output only.
- The Slack failure notice (`sendFailureNotice`), the scan/connect loop (`bleDetect`) and `stop` are network and thread plumbing.
- The registry class, its periodic sweep and the `BtleRegisteredClient` class are not part of this model. The client's policy (`shouldSendClientInEvent`, `shouldSendClientOutEvent`, `sweepShouldSendClientOutEvent`, `updateWithNewDetectedClientData`, `getExtendedDataForEvent`, the constructor) is an uninterpreted `Policy`. The flag setters are modelled as setting their one flag.
- EventManager.WriteBack: an update of an absent key is modelled as a no-op, because the registry's behaviour in that case is not visible. This affects only the write-back inside `sendEventToController` for a new client and for a removed client.
- Properties that depend on the client policy are not stated. These include "a departure is only sent after an arrival", the scenario walk-throughs, and "the sweep removes every stale client".
- Threads, queues, `RepeatedTimer`, the poll/sleep loops and shutdown flags of the collection point are concurrency plumbing. The collection point also iterates each queue item as a list, while the scan handler puts a single client.
- `Message.__eq__` calls an undefined free function `to_bytes`, so it has no behaviour to model. `pretty`, `__repr__` and `__str__` are string layout, and the `print` calls in `_read` are output.
- NdefMessage.Normalize: records are values, so the model has no shared records. In the code, `__setitem__` stores the given object without copying it (`message.py:91`), and `__getitem__` returns the stored object (`message.py:85`). So after `m[2] = m[0]`, one record object sits at positions 0 and 2. `_write` then sets both MB and ME on that object, and the first record written carries ME. The model's guarantee that only the last record carries ME holds only for messages without shared records.
- NdefMessage.SetItem: slice keys are not modelled, and neither is `__delitem__`. Values that are iterables made only of records are not modelled either. The check at `message.py:88-89` lets any such iterable through, including an empty one such as `()` or `''`, and `message.py:91` stores it unchecked as a single element instead of rejecting it. `append`, `extend` and `insert` reject such values with TypeError.
- NdefMessage.GetItem: slice keys of `__getitem__` are not modelled. `message[a:b]` returns a list of records (`message.py:85`).
- NdefMessage.New: `str` and `bytes` arguments are not modelled. Under Python 3, a `str` reaches `io.BytesIO(str)` at `message.py:27`, which raises TypeError. A `bytes` object matches none of the cases at `message.py:24-31` and raises TypeError at `message.py:32`. So the class comment's promise that a `str` is parsed, and its `b'...'` example, do not hold.
- The record class and its byte layout are not part of this model. NdefMessage.Read reports a stream that ends before a record with ME as `EndOfStream`, standing in for whatever the record parser raises.
- The PC/SC smart-card reader, the MQTT client, the configuration loaders and the template modules are I/O wrappers outside the modelled core.
- Datetime values are opaque integers, and the rssi and configuration values are unbounded integers.

## Findings

| source | as written | input that shows it | evidently intended | confidence | as-written member | corrected member |
|---|---|---|---|---|---|---|
| collection_modules/nfc_bcard_reader/nfc/ndef/message.py:114-124 | `insert(i, record)` appends at the end and ignores i | `insert(0, b)` on a message `[a]` gives `[a, b]` | insert before position i (list.insert semantics), so `insert(0, b)` gives `[b, a]` | high (documented behaviour contradicts the code; not executed) | `NdefMessage.InsertAsWritten` (`NdefMessage.InsertAsWrittenIgnoresPosition`) | `NdefMessage.Insert` (`NdefMessage.InsertAsDocumented`, `NdefMessage.PopInsertRoundTrip`) |
