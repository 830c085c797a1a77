# Voyager DFU protocol: host helpers and bootloader core

This project models the two ends of the voyager bootloader's firmware-update
wire protocol and proves that they agree:

- **The host helpers** are in `utils/host/voyager_host_utils.py`:
  - `calculate_crc`.
  - `generate_start_request` builds the 8-byte START packet.
  - `generate_data_packet` builds DATA packets from a sequence counter.
  - `compare_ack_message` classifies the ACK the device sends back.
- **The bootloader's protocol logic** is in `src/voyager.c`:
  - The table-driven CRC.
  - The single-slot receive buffer with overrun detection.
  - ACK construction and packet parsing.
  - The IDLE / DFU_RECEIVE / JUMP_TO_APP state machine, covering `get_desired_state`, `exit_state`, `enter_state`, `run_state` and `voyager_bootloader_run`.
  - The per-packet handlers for START and DATA: sequencing, byte accounting and ACK metadata.

The checksum is CRC-32/MPEG-2 (generator polynomial 0x04C11DB7 of ISO/IEC
13818-1 Annex A, initial value 0xFFFFFFFF, no reflection, no final XOR). It
is defined once, as `Crc.Checksum`. Both implementations are proved equal to
it:
- The device's loop runs in `uint32_t` arithmetic.
- The host's loop runs on an unbounded Python integer masked to 32 bits after every byte.

Every entry of the 256-entry table is proved to be the polynomial-division
remainder of its index.

The bootloader's static `voyager_data_t` record is the immutable
`Device.Bootloader` value. Each operation takes it and returns the next one.
The integration functions are not modelled:
- What they return is an input: `Device.Hal` holds the result of each NVM read or write, the erase, the flash write and the send.
- What they are asked to do is an output: a list of `Device.Event`s.

`Interop.Transfer` feeds a whole image to the bootloader, one DATA packet
and one run per payload, and has the host judge each ACK. `Interop.TransferAccepted`
proves the following for an image that fits the announced size, is sent in
sequence and meets successful flash calls:
- every ACK is accepted;
- the payloads land contiguously from the byte count on;
- both counters end in step;
- the next run heads for the application once the size is reached.

A call that jumps to the application, or that would hand a wrapped `size_t`
length to the flash driver or the checksum, has an `Outcome` the model does
not follow.

Modules, one file each:

| file | module | contents |
|---|---|---|
| bytes.dfy | `Bytes` | octets and big-endian 24/32-bit field packing |
| crc_table.dfy | `CrcTable` | the lookup table and its derivation from the polynomial |
| crc.dfy | `Crc` | the checksum, the device loop, the host loop |
| protocol.dfy | `Protocol` | message ids and the enumerations of `inc/voyager.h` |
| host.dfy | `Host` | the Python helpers, with the DATA counter as a `Session` |
| device.dfy | `Device` | the bootloader record, its operations and state machine |
| interop.dfy | `Interop` | host packets fed to the bootloader and its ACKs judged by the host |

Constants:
- The ACK length is 8 (`Protocol.AckMessageSize`). The host defines it at `utils/host/voyager_host_utils.py:120`. The device's macro `VOYAGER_DFU_ACK_MESSAGE_SIZE` is not defined in the C sources, so the model fixes it at the same 8.
- The receive-buffer size `VOYAGER_BOOTLOADER_MAX_RECEIVE_PACKET_SIZE` is a build setting the C sources never define (the project's lint configuration passes 1024). The model keeps it a parameter: it is the length of the record's `messageBuffer`. Every property holds for any size from 8 to 2^32 - 1 (`Device.SupportedCapacity`). The lower bound is there because the START parser reads bytes 1-7 of the buffer whatever the packet's length.
- The numeric message ids (UNKNOWN 0, START 1, ACK 2, DATA 3) are the host enumeration's. The C header that defines them is not part of this model.

Two behaviours of the code worth knowing:
- **Unknown device error byte.** `UNKNOWN_ERROR_CODE` is declared at `utils/host/voyager_host_utils.py:32` but never returned. For an error byte of 7 or more, `VoyagerTargetDfuError(msg[1])` raises `ValueError`. `Host.CompareAckMessage` returns `Raised(ValueError)` and proves that it never returns `UnknownErrorCode`.
- **Unchecked results.** `init_dfu` ignores a failed read of the start address. In DFU_RECEIVE, the results of `process_data_packet` and `process_start_packet` are ignored. So after a failed flash write, NVM store or address read, the ACK buffer is sent with whatever it held before. The model does the same.

## Model

| member | source | states |
|---|---|---|
| Bytes.BeUint32OfBytes | src/voyager.c:411-415 | reading four big-endian bytes back recovers the 32-bit value that was packed |
| Bytes.BeBytesOfUint32 | src/voyager.c:481-485 | every four bytes are the big-endian packing of the value they decode to |
| Bytes.BeUint24Bound | src/voyager.c:406-409 | a size read from three bytes is below 2^24 |
| Bytes.BeUint24OfBytes | utils/host/voyager_host_utils.py:41-46 | a value below 2^24 packs with a zero top byte, and its low three bytes read back to it |
| Bytes.BeBytes32Injective | src/voyager.c:481-485 | two checksums are equal exactly when their big-endian encodings are |
| CrcTable.TableIsBitwise | src/voyager.c:313-339 | every one of the 256 table entries is the MSB-first remainder of its index, shifted to the top byte, under polynomial 0x04C11DB7 |
| CrcTable.TableShape | utils/host/voyager_host_utils.py:74 | entry 1 is the generator polynomial and entry 0 is zero |
| Crc.FoldConcat | src/voyager.c:343-347 | a checksum can be computed piecewise, the first piece's result seeding the second |
| Crc.ChecksumEmpty | utils/host/voyager_host_utils.py:108-117 | the empty buffer's checksum is 0xFFFFFFFF: no final XOR is applied |
| Crc.ChecksumSnoc | utils/host/voyager_host_utils.py:111-115 | crc(s ++ [b]) = ((crc(s) << 8) ^ T[((crc(s) >> 24) ^ b) & 255]) mod 2^32 |
| Crc.CheckValue | src/voyager.c:309-350 | the checksum of ASCII "123456789" is 0x0376E6E7, the catalogued CRC-32/MPEG-2 check value |
| Crc.CalculateCrc | src/voyager.c:309-350 | the device's count-down loop returns the checksum of exactly the first `app_size` bytes |
| Crc.HostLoopAgrees | utils/host/voyager_host_utils.py:108-117 | from any position, the host's masked loop computes the 32-bit checksum of the bytes not yet read |
| Crc.HostCrcIsChecksum | utils/host/voyager_host_utils.py:71-117 | the host's `calculate_crc` equals the device's checksum on every byte sequence |
| Protocol.DfuErrorOf | inc/voyager.h:14-22 | bytes 0 to 6 name exactly one DFU error each, with that value; every other byte names none |
| Protocol.DfuErrorRoundTrip | inc/voyager.h:14-22 | decoding an error's wire value recovers the error, so distinct errors have distinct values |
| Host.HostErrorOf | utils/host/voyager_host_utils.py:130-131 | the host error reported for a device error carries the same numeric value |
| Host.GenerateStartRequest | utils/host/voyager_host_utils.py:34-49 | raises exactly when the checksum does not fit 32 unsigned bits; otherwise the packet is 8 bytes: START id, size mod 2^24 big-endian in bytes 1-3, checksum big-endian in bytes 4-7 |
| Host.GenerateDataPacket | utils/host/voyager_host_utils.py:51-66 | the packet is the payload with the DATA id and the counter in front; the counter used is 0 after a reset, else the session's; the session moves to that counter plus one mod 256 |
| Host.CompareAckMessage | utils/host/voyager_host_utils.py:119-143 | wrong length gives SIZE_TOO_LARGE whatever the content; otherwise a wrong id gives INVALID_MESSAGE_ID; it raises exactly for an error byte of 7 or more; UNKNOWN_ERROR_CODE is never returned |
| Host.CompareAckReportsDeviceError | utils/host/voyager_host_utils.py:128-131 | an ACK carrying device error 1 to 6 is reported as that error, whatever its checksum field holds |
| Host.ChecksumFieldAgrees | utils/host/voyager_host_utils.py:133-136 | the host's comparison of the checksum field succeeds exactly when the field is the big-endian device checksum |
| Host.CompareAckAccepts | utils/host/voyager_host_utils.py:119-143 | the host returns NONE if and only if the ACK is 8 bytes with id ACK, error 0 and the big-endian checksum of the previous packet after its first byte |
| Host.CompareAckDetectsMismatch | utils/host/voyager_host_utils.py:133-141 | an error-free ACK with any other checksum field is reported as CRC_MISMATCH |
| Host.SendAllCounter | utils/host/voyager_host_utils.py:58-62 | after a run of packets without reset the counter has advanced once per packet, modulo 256 |
| Host.SendAllPacket | utils/host/voyager_host_utils.py:58-64 | the i-th packet of a run carries the starting counter advanced i times |
| Host.AdvancePeriod | utils/host/voyager_host_utils.py:62 | 256 increments modulo 256 return any counter to its value |
| Host.CounterPeriod | utils/host/voyager_host_utils.py:58-68 | 256 packets without reset leave the session as it was |
| Device.PowerOn | src/voyager.c:7-9 | the zero-initialised record of a build with any supported receive-buffer size satisfies the buffer-size invariant, has a buffer of that size and is NOT_INITIALIZED |
| Device.Init | src/voyager.c:11-27 | initialisation resets every field: the result is the all-zero power-on record of the same build, in IDLE (KEEP_IDLE, no CRC failure, both buffers cleared, no packet, no overrun, no valid start, counters and cached size 0, no DFU error), with no events and NONE |
| Device.InitForgets | src/voyager.c:11-27 | initialisation ends in the same record whatever the record of the same build held before |
| Device.SetRequest | src/voyager.c:31-34 | a request changes the request field and nothing else |
| Device.Receive | src/voyager.c:352-371 | the buffer keeps its length; longer than the buffer: INVALID_ARGUMENT, nothing changes; while pending only the overrun flag rises; otherwise the buffer's prefix is the data, its tail is kept, the size is recorded and nothing else changes |
| Device.GenerateAckMessage | src/voyager.c:373-398 | a short buffer gives INVALID_ARGUMENT and is untouched; otherwise byte 0 is ACK, byte 1 decodes to the error, bytes 2-5 are the metadata or zeros, and every later byte is kept |
| Device.GenerateAckShape | src/voyager.c:383-393 | the whole buffer after a successful ACK: id, error value, metadata or zeros, then the old tail |
| Device.UnpackMessage | src/voyager.c:400-432 | START exactly for id 1, with the size below 2^24 and both fields the big-endian values of bytes 1-3 and 4-7; DATA exactly for id 3, with byte 1 as sequence number and the length minus 2 as payload size; any other id carries only the id |
| Device.UnpackSizeBytes | src/voyager.c:406-409 | the three size bytes are the low three bytes of the packing of the size read from them |
| Device.GetDesiredState | src/voyager.c:263-307 | IDLE goes to JUMP_TO_APP iff a jump is requested and to DFU_RECEIVE iff DFU is requested after a valid START; DFU_RECEIVE goes to IDLE iff a DFU error is set and to JUMP_TO_APP iff none is and the announced size is written; JUMP_TO_APP goes to IDLE iff the application check failed |
| Device.ExitState | src/voyager.c:69-92 | leaving IDLE forgets the valid START and, only when jumping, the request; leaving DFU_RECEIVE clears only the overrun flag; other states change nothing |
| Device.InitDfu | src/voyager.c:434-457 | the sequence number and byte count restart at 0; the application area is erased only when the end address can be read, and the erase's or the read's result is returned |
| Device.EnterState | src/voyager.c:94-120 | entering DFU_RECEIVE initialises the transfer; entering IDLE clears the cached size; other entries do nothing and return NONE |
| Device.ProcessStartPacket | src/voyager.c:459-494 | the size is cached whatever happens; the result is the size store's failure or else the checksum store's result; the state is unchanged |
| Device.StartPacketStores | src/voyager.c:462-472 | the size is always stored, and the checksum only after the size store succeeded |
| Device.StartPacketAck | src/voyager.c:474-493 | only the cached size and the ACK buffer change; the ACK is error-free with the big-endian checksum of bytes 1-7 exactly when both stores succeeded, else it is untouched |
| Device.WritePayload | src/voyager.c:506-530 | writing a payload keeps the record valid and the state, and returns the flash write's result |
| Device.WritePayloadWrites | src/voyager.c:506-511 | the payload is written once, at the current byte count; the counter advances by 1 mod 256 and the byte count by the payload length mod 2^32; only those and the ACK buffer change |
| Device.WritePayloadAck | src/voyager.c:513-530 | after a successful write the ACK is error-free with the big-endian checksum of the sequence byte and payload; after a failed one the ACK buffer is untouched |
| Device.AddWrapping | src/voyager.c:510 | adding a payload length to the byte count, taken as 32 bits wide, wraps modulo 2^32 |
| Device.ProcessDataPacket | src/voyager.c:496-539 | the outcome is unspecified exactly when the sequence matches and a wrapped payload length would reach the checksum or the flash driver; completed outcomes keep the record valid and the state |
| Device.DataPacketAccepted | src/voyager.c:499-511 | an in-sequence packet of two or more bytes whose start address can be read is written |
| Device.DataPacketAddressUnreadable | src/voyager.c:499-506 | when the start address cannot be read nothing changes, nothing is written and the read's failure is returned |
| Device.DataPacketOutOfSequence | src/voyager.c:532-536 | any other sequence number is answered OUT_OF_SEQUENCE with zero metadata and recorded as the DFU error; counters and byte count stay |
| Device.SendAck | src/voyager.c:172-177 | the ACK buffer is sent only if handling succeeded, and then the send's result is returned; the pending flag is cleared either way and nothing else changes |
| Device.IdleVerdict | src/voyager.c:133-170 | IDLE refuses with PACKET_OVERRUN iff the overrun flag is set, and accepts a pending packet iff it is a START while DFU is requested. Otherwise it refuses a START with ENTER_DFU_NOT_REQUESTED, a DATA packet with OUT_OF_SEQUENCE and any other id with INVALID_MESSAGE_ID, and never with NONE |
| Device.IdleHandle | src/voyager.c:133-171 | handling a packet in IDLE keeps the DFU error and the state, and leaves the overrun flag clear |
| Device.RunIdle | src/voyager.c:126-179 | the IDLE step clears the DFU error and the pending flag; the overrun flag survives only if nothing was pending |
| Device.IdleRefuses | src/voyager.c:126-179 | every refused packet in IDLE sends one ACK with the verdict's error and zero metadata and changes nothing but the flags and ACK buffer |
| Device.IdleAcceptsStart | src/voyager.c:145-153 | an expected START with both stores succeeding stores the 24-bit size and the checksum, sends an error-free ACK with the checksum of bytes 1-7, caches the size and records a valid start |
| Device.IdleStartStoreFails | src/voyager.c:145-153 | an expected START whose size or checksum store fails stores the checksum only after the size; it records no valid start, prepares and sends no ACK, and returns the failed store's result |
| Device.DfuReceiveHandle | src/voyager.c:216-241 | handling a packet in DFU_RECEIVE keeps the record valid and the state, and never jumps |
| Device.RunDfuReceive | src/voyager.c:216-251 | the DFU_RECEIVE step leaves nothing pending and keeps the state |
| Device.DfuReceiveWrites | src/voyager.c:223-249 | an in-sequence DATA packet with a readable start address is written, and the ACK buffer is sent whatever the write returned |
| Device.DfuReceiveOutOfSequence | src/voyager.c:223-249 | an out-of-sequence DATA packet sends an OUT_OF_SEQUENCE ACK, records that error and writes nothing |
| Device.DfuReceiveRefuses | src/voyager.c:228-241 | an overrun or a packet that is neither DATA nor START sends the matching error ACK and records it as the DFU error |
| Device.DfuReceiveRestarts | src/voyager.c:216-247 | a START in DFU_RECEIVE caches the new size and restarts the sequence number and byte count at 0; after the stores and `init_dfu`'s erase, the ACK buffer is sent whatever they returned (the previous ACK when a store failed), and the send's result is returned |
| Device.RunState | src/voyager.c:122-261 | the step is not followed exactly in JUMP_TO_APP; before initialisation it returns NOT_IMPLEMENTED and changes nothing; otherwise the state is kept |
| Device.Run | src/voyager.c:36-67 | a run keeps the buffer-size and byte-count invariant |
| Device.RefusalAck | src/voyager.c:373-398 | a refusal ACK is what `generate_ack_message` writes into the 8-byte ACK buffer for the error with no metadata: the ACK id, the error's value and zero metadata |
| Device.RunEntersDfu | src/voyager.c:36-67 | with a valid START and DFU requested, a run moves to DFU_RECEIVE, forgets the START, restarts the transfer and erases the application area |
| Device.RunEraseFails | src/voyager.c:48-52 | a failed erase stops the run in IDLE and returns the erase's failure |
| Device.RunLeavesDfuOnError | src/voyager.c:288-291 | any DFU error takes the next run to IDLE, where the error and the overrun flag are cleared |
| Device.RunJumpsWhenComplete | src/voyager.c:291-294 | once the announced size is written without error the next run heads for the application |
| Interop.StartRoundTrip | src/voyager.c:404-416 | the bootloader parses a host START request as the announced size mod 2^24 and the announced checksum |
| Interop.DataRoundTrip | src/voyager.c:417-421 | the bootloader parses a host DATA packet as the host's sequence number and the payload's length, with the payload after the header |
| Interop.RefusalReported | utils/host/voyager_host_utils.py:128-131 | the host reports every refusal ACK the bootloader builds as the same error |
| Interop.ReceiveDataPacket | src/voyager.c:352-371 | a host DATA packet received into an idle buffer is pending with its id, sequence number and payload in place |
| Interop.DataAckAccepted | src/voyager.c:516-529 | an in-sequence host DATA packet with successful flash calls is written at the byte count, and the one ACK sent back is accepted by `compare_ack_message`; both ends then expect the same next sequence number |
| Interop.ReceiveStartRequest | src/voyager.c:352-371 | a host START request received into an idle buffer is pending with its fields in place |
| Interop.StartAckAccepted | src/voyager.c:474-491 | a START in IDLE with DFU requested and both stores succeeding stores the 24-bit size and the checksum, and the ACK sent back is accepted by `compare_ack_message` |
| Interop.OutOfSequenceReported | src/voyager.c:532-536 | an out-of-sequence host DATA packet is reported by the host as OUT_OF_SEQUENCE, and the next run returns to IDLE |
| Interop.DataRunNext | src/voyager.c:216-247 | the run that takes in an in-sequence host DATA packet with successful flash calls stays in DFU_RECEIVE with nothing pending, no error, the cached size unchanged, the byte count grown by the payload mod 2^32 and the counter equal to the host's next one |
| Interop.Transfer | utils/host/voyager_host_utils.py:51-66 | a transfer that yields an exchange leaves a valid bootloader record and one host verdict per payload sent |
| Interop.Send | utils/host/voyager_host_utils.py:51-66 | sending the next DATA packet and answering it keeps the record valid and gives one verdict per payload |
| Interop.Answer | src/voyager.c:216-247 | one run on the received packet followed by the rest of the transfer keeps the record valid and gives one verdict per payload |
| Interop.TransferStep | src/voyager.c:496-529 | the first packet of a transfer is written at the byte count and its ACK accepted; the bootloader is left receiving with the byte count grown by the payload and the counter one on, and the rest of the transfer continues from there |
| Interop.TransferReadyStep | src/voyager.c:499-511 | a transfer whose remaining image fits the announced size stays ready after its first packet, with the byte count grown by that payload |
| Interop.TransferCompletes | src/voyager.c:499-511 | a ready transfer completes with the byte count grown by the image size, both ends holding the counter the host's helper leaves, and the next run heading for the application once the announced size is reached |
| Interop.TransferAcked | utils/host/voyager_host_utils.py:122-140 | in a ready transfer the host accepts the ACK of every DATA packet |
| Interop.TransferWrites | src/voyager.c:506-508 | in a ready transfer the payloads are written to flash in order, each right after the one before, from the byte count on |
| Interop.TransferAccepted | src/voyager.c:496-539 | a whole in-sequence transfer within the announced size, with successful flash calls: every ACK accepted, the image written contiguously, both counters in step, and the application next once the size is reached |
| Interop.StartUnpackExample | test/test_dfu.cpp:803-815 | the START packet for size 0xADBEEF and checksum 0xDEADBEEF unpacks to those two values |

## Left out

- The JUMP_TO_APP branch of `run_state` (`src/voyager.c:180-214`) calls the application's reset vector through a function pointer, so `RunState` stops there with `JumpNotModelled`.
- `voyager_private_verify_flash` (`src/voyager.c:541-574`) reads raw memory at an integer address, so it is left out. The checksum it computes is `Crc.CalculateCrc`.
- `voyager_bootloader_get_state` (`src/voyager.c:29`) is the record's `state` field.
- The integration functions (NVM read and write, flash erase and write, send to host) are foreign code. Their results are the `Hal` parameter and their requests are `Event`s. Each one answers the same way throughout one call. `init_dfu` reads the end address twice; both reads are one `endAddressRead`.
- Builds whose receive buffer is shorter than 8 bytes are not covered (`Device.SupportedCapacity`). There `unpack_message` would read a START packet's fields past the end of the buffer.
- Device.AddWrapping: the C sources never declare the type of `bytes_written`; the definition of `voyager_data_t` is not part of this model. The model takes it to be 32 bits wide, as wide as `app_size_cached` (`voyager_bootloader_app_size_t`, `uint32_t` at `inc/voyager.h:53`), which it is compared with at `src/voyager.c:291`. So `Device.Bootloader.Valid` keeps the count below 2^32 and the sum wraps modulo 2^32. A wider counter would never wrap for images below 2^32 bytes.
- NULL pointer arguments do not exist for sequences, so the NULL checks in `process_receieved_packet` and `generate_ack_message` are left out.
- A flash write is addressed as start address plus byte count. The model keeps the two apart in `WriteFlash` rather than adding them as a `uintptr_t`, whose wrap-around is not modelled.
- Device.ProcessDataPacket: a DATA packet shorter than two bytes makes the payload length wrap as `size_t`. Where that length reaches the checksum or the flash driver, the outcome is `Unspecified` rather than a model of reading past the buffer.
- The equivalence of the table-driven update with bit-at-a-time division over a whole byte stream is not proved. The table is proved equal to division entry by entry, and both loops are proved equal to `Crc.Checksum`.
- Device.Run: its contract states only that the record stays valid. Each path through it is stated by `RunEntersDfu`, `RunEraseFails`, `RunLeavesDfuOnError`, `RunJumpsWhenComplete` and the `Interop` lemmas.
- `generate_data_packet` given a payload element outside 0..255 raises in `bytearray`; payloads are byte sequences here.
- The diagnostic `print` calls in `compare_ack_message` (`utils/host/voyager_host_utils.py:137-140`) have no effect on the result.
- `inc/voyager_private.h` and `test/test_api.cpp` describe an older API that `src/voyager.c` does not implement, so they are not part of this model. The test harness, the mocks and the scripts are not part of this model either.
