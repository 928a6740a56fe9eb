# wakaama, modelled in Dafny

This project models the hard parts of the LwM2M client and server library wakaama, in C under
`lwm2m/wakaama`, and proves properties of the model. The configuration is LwM2M 1.1, without
`LWM2M_RAW_BLOCK1_REQUESTS`, with 64-bit `long` and memory that never runs out. Clients and servers are
modelled side by side where a property spans both. Check it with `dafny verify dfyconfig.toml`.

Code that works in place is modelled in place: printers fill arrays, lists of `list.c` are nodes on the
heap, and transactions, block data, registrations, observations and the bootstrap state are classes whose
methods change their fields. Each method is proved against a function on values, and the theorems are
about these functions. `Bytes` declares the integer widths; wrap-around and truncation are written out.

| part | modules | what is proved in the end |
|---|---|---|
| Block-wise transfer (RFC 7959) | `Blocks`, `Block1`, `Block1Protocol`, `Block1Progress`, `Block2`, `Block2Protocol` | what reassembly holds after any arrivals; end-to-end delivery over a network that delays, repeats, reorders and loses; exactly when a transfer delivers |
| CoAP messages (RFC 7252, sections 3 and 3.1) | `CoapOptions`, `Coap`, `CoapParser`, `CoapRoundTrip`, `CoapSize` | parsing undoes serialization, exactly for canonical messages; exactly when the size pass is enough |
| TLV (OMA LwM2M TS 1.0, section 6.4.3) | `Tlv`, `TlvParser` | the length pass is exact; parsing gives back the shape, exactly for trees without empty containers |
| Text, paths, Base64 (RFC 4648, section 4) | `Text`, `Uri`, `UriPath`, `Base64` | round trips, with exact conditions |
| Registration payload and query (RFC 6690, section 2) | `RegisterPayload`, `RegisterParser`, `RegisterReader`, `RegisterRoundTrip`, `RegistrationQuery` | two passes agree; the server reads back what the client prints |
| Lists and transactions (RFC 7252, section 4.2) | `SortedList`, `Transactions`, `TransactionRuns` | sortedness, conservation of callbacks, the retransmission schedule |
| Registration and lease | `Registration`, `RegistrationRuns`, `RegistrationOrder`, `Lease` | the retry bound, ordered registration, renewal in time |
| Observation | `Observe`, `ObserveRuns` | gaps between notifications over every run |
| Bootstrap Delete-All | `Bootstrap`, `BootstrapDelete` | what is left behind |

Some properties that one would expect do not hold of the code. They are kept as the code has them, with a
witness or with the exact condition under which they hold:

- A block number that skips ahead is acknowledged, and can end a transfer without being in it
  (`Blocks.SkippedBlockCompletes`, `Blocks.CompletionIff`); a late copy of block 0 resets the buffer
  (`Blocks.LateFirstBlock`, `Blocks.DuplicateEffect`).
- A block of an earlier write to the same path can be taken for one of the transfer (`Blocks.EarlierBlockMixes`,
  `Block1Protocol.PassesIff`).
- A 4.13 without Block1 can make a block-wise transfer start over with the same or a larger size, so that the
  negotiation need not end (`Block1.ShrinksIff`, `Block1.NegotiationEndsIff`, `Block1.RefusedWithoutBlock1`);
  a success with Block1 for an unblocked request divides by zero (`Block1.DividesByZeroIff`).
- A stray block under a message id still to come can take the place of a Block2 transfer
  (`Block2Protocol.StrayCompletes`, `Block2Protocol.WaitingSurvivesIff`).
- Payloads of more than 2^20 blocks: a Block1 transfer then reports success after delivering only a piece
  (`Block1Progress.DeliveredIff`), a Block2 transfer never ends (`Block2Protocol.EndsIff`).
- A payload that fits the responder's blocks but not the requester's is shown to the callback twice
  (`Block2Protocol.DeliversThePayload`).
- The size reserved for a message can be too short (`CoapSize.SizeTooSmall`, `CoapSize.SizeIsEnoughIff`).
- Texts of numbers above 2^64 - 1 are read modulo 2^64 unless a digit is refused on the way, infinitely many
  of them (`Text.ReadsUIntModulo`, `Text.TwiceOverflowing`, `Text.OverflowsEndlessly`).
- A registration payload with an entry behind the first 65536 bytes is refused or loses what its last entry names
  (`RegisterRoundTrip.PayloadRoundTripIff`, `RegisterRoundTrip.LateEntryIsLost`).
- A segment that is only a prefix of the alternative path passes for it (`UriPath.AltMatchesIff`).
- The size pass is too small when object 21 is registered, which the fill pass does not leave out
  (`RegisterPayload.SizeEnoughIff`).
- A separate response under its own message id finishes no transaction
  (`Transactions.OtherMidPasses`).
- A blocking server that succeeds late leaves ordered registrations waiting for good
  (`RegistrationOrder.BlockingCanStall`, `RegistrationOrder.SuccessHandsOnIff`).
- A caller that only keeps to the timeouts of `lwm2m_step` can renew late when the lifetime is below 125
  seconds (`Lease.NeverLateIff`).
- A second Write-Attributes adds no attribute (`Observe.WriteTakesEffectIff`); a request to stop observing can
  take away another path's watcher (`Observe.WithdrawsOwnIff`).
- The answer to a Delete-All is that of the last object alone (`BootstrapDelete.LastObjectDecides`).

## Model

| member | source | states |
|---|---|---|
| Blocks.BlockList.FindBlockData | lwm2m/wakaama/coap/block.c:81-91 | Finds the first entry of the list with the key, or reports that there is none. |
| Blocks.BlockList.HandleBlock | lwm2m/wakaama/coap/block.c:202-294 | One received block changes only the transfer of its key: block 0 starts it over, the next number at the right offset is appended, a lower one is a retransmission, and one without a transfer or at a wrong offset is answered 4.08; a new transfer goes to the head of the list. |
| Blocks.BlockList.Delete | lwm2m/wakaama/coap/block.c:116-142 | Takes out the first entry with the key and nothing else. |
| Blocks.BlockList.SetExpected | lwm2m/wakaama/coap/block.c:350-361 | Moves the waiting transfer to the new message id and changes nothing else. |
| Blocks.UpdatedViews | lwm2m/wakaama/coap/block.c:202-294 | Handling a block for one key gives that key the new buffer, leaves the buffer of every other key as it was and keeps keys distinct. |
| Blocks.RemovedViews | lwm2m/wakaama/coap/block.c:116-142 | After a deletion from a list of distinct keys the key has no transfer; every other key has the one it had, in any list. |
| Blocks.RekeyedViews | lwm2m/wakaama/coap/block.c:350-361 | A transfer moved to an unused message id is found under that id, no longer under the old one, and no other transfer is affected. |
| Blocks.MovedView | lwm2m/wakaama/coap/block.c:350-361 | A transfer moved to another message id is found there if and only if none waits under that id in front of it; otherwise that one is found. |
| Blocks.BufferIsAccepted | lwm2m/wakaama/coap/block.c:202-294 | For every sequence of arrivals, gaps, repeats and late blocks included: the buffer is the concatenation of the blocks accepted since the last block 0, and blockNum is their number less one. |
| Blocks.AcceptedInOrder | lwm2m/wakaama/coap/block.c:242-286 | For every sequence of arrivals the i-th accepted block is block number i, and the accepted data before it is exactly i times its own block size. |
| Blocks.AcceptedAtOffset | lwm2m/wakaama/coap/block.c:255-286 | For every sequence of arrivals with 20-bit numbers, each accepted block n of size s lies in the buffer at offset n * s. |
| Blocks.ExpectedOffsetExact | lwm2m/wakaama/coap/block.c:255-262 | The 32-bit product of number and size does not wrap for any number and size the option can carry. |
| Blocks.CompletionIff | lwm2m/wakaama/coap/block.c:286-294 | When a last block completes a transfer, that block is in the completed payload exactly if its number is 0 or follows the last accepted one; otherwise the buffer is reported as it was. |
| Blocks.SkippedBlockCompletes | lwm2m/wakaama/coap/block.c:255-294 | Witness: block 0 followed by a last block 2 reports success with block 0 alone. |
| Blocks.DuplicateEffect | lwm2m/wakaama/coap/block.c:216-252 | A repeated block is a harmless retransmission exactly if it is not block 0; a repeated block 0 resets the buffer to itself. |
| Blocks.LateFirstBlock | lwm2m/wakaama/coap/block.c:216-240 | Witness: the same three blocks complete to the whole payload, but with a late copy of block 0 in between to the first block only. |
| Blocks.ForeignBlockIff | lwm2m/wakaama/coap/block.c:202-294 | A block that does not belong to the transfer it reaches leaves the data alone and completes nothing if and only if it is the same block 0 again, a block below the next one, the next one at another offset, or one from further ahead with more to come. |
| Blocks.EarlierBlockMixes | lwm2m/wakaama/coap/block.c:255-277 | Witness: a block 1 left over from an earlier write is taken for the one that is due, and the payload completes with a piece of the earlier one. |
| Block1.Sender.constructor | lwm2m/wakaama/coap/transaction.c:500-518 | The first request carries block 0 of the payload, or the whole payload without the option if it fits. |
| Block1.Sender.SendNewBlock1 | lwm2m/wakaama/core/packet.c:341-359 | Sends the requested block under the next message id and makes it live, or, past the end of the payload, sends nothing and uses up no message id. |
| Block1.Sender.SendNextBlock1 | lwm2m/wakaama/core/packet.c:361-385 | Goes on behind the acknowledged block: with the next number, or after block 0 with the block at which a smaller size continues. |
| Block1.Sender.RetryBlock1 | lwm2m/wakaama/core/packet.c:403-425 | Sends the refused block again with the size the peer asks for, halved when that is the size already sent, and only if the result is smaller; an unblocked request starts over at block 0 with it. Otherwise nothing is sent. |
| Block1.Sender.ChangeToBlock | lwm2m/wakaama/core/packet.c:387-400 | Turns an unblocked request into a transfer with the largest block size of the form 16 * 2^n within the peer's limit, the limit cut to 16 bits. |
| Block1.Sender.HandleAck | lwm2m/wakaama/core/packet.c:750-833 | An acknowledgement with another message id changes nothing; one of the live request starts exactly the transaction its code and options call for and calls back once. |
| Block1.Receiver.HandleRequest | lwm2m/wakaama/core/packet.c:519-668 | One request delivers a payload to the application at most once, answers with its code and Block1 option, and leaves the transfers of all other paths alone. |
| Block1.LoopFloorSize | lwm2m/wakaama/core/packet.c:389-395 | The loop computes the largest block size of the form 16 * 2^n not above the limit, and at least 16. |
| Block1.FloorSizePower | lwm2m/wakaama/core/packet.c:389-395 | For every limit between 16 * 2^k and the next power that size is 16 * 2^k. |
| Block1.RetryShrinks | lwm2m/wakaama/core/packet.c:403-425 | A retry that the Block1 option of a 4.13 asks for has the same number and a strictly smaller size, of at least 16. |
| Block1.ShrinksIff | lwm2m/wakaama/core/packet.c:387-425 | What a 4.13 makes of a block-wise request: with Block1 the size shrinks or the transfer ends, exactly by number and size of the option; without it the transfer starts over at block 0 in any case, with a smaller size if and only if the Size option asks for less. |
| Block1.ShrinkingIsBounded | lwm2m/wakaama/core/packet.c:387-425 | Answers that shrink the size one after the other are at most as many as it can be halved above 16, and never more than seven. |
| Block1.RetriesEnd | lwm2m/wakaama/core/packet.c:403-425 | Eight answers of 4.13 that all carry Block1, whatever they ask for, end every transfer. |
| Block1.NegotiationEndsIff | lwm2m/wakaama/core/packet.c:750-828 | The negotiation with a peer that keeps answering the same 4.13 ends if and only if that carries Block1. |
| Block1.RefusedWithoutBlock1 | lwm2m/wakaama/core/packet.c:387-400 | Witness: a 4.13 without Block1 starts the very same block again, and one with a large Size makes block 5 of size 16 start over at block 0 of size 1024. |
| Block1.DividesByZeroIff | lwm2m/wakaama/core/packet.c:361-385 | A success with Block1 divides by zero in prv_send_next_block1 if and only if it answers a request without the option, or one of size 0. |
| Block1Protocol.StepKeepsInv | lwm2m/wakaama/core/packet.c:341-425 | Every step of sender, receiver and network (delay, loss, reordering and repetition of requests and acknowledgements, earlier requests that pass, other exchanges, expiry) keeps the protocol invariant, and the sender can process every acknowledgement it meets. |
| Block1Protocol.RunKeepsInv | lwm2m/wakaama/core/packet.c:341-425 | The invariant, the payload and the agreed block size hold in every state reachable by any run. |
| Block1Protocol.DeliversOnlyThePayload | lwm2m/wakaama/core/packet.c:341-668 | For every payload of up to 2^20 agreed blocks, all pairs of valid block sizes, whatever earlier writes to the path have left in the block data, and every run in which no late block 0, no earlier request that does not pass and no acknowledgement older than a cycle of message ids comes back: whatever is delivered is the payload, a block-wise payload at most once, and a 2.04 at the sender means it was delivered. |
| Block1Protocol.EveryEnabledStepIsSafe | lwm2m/wakaama/core/packet.c:361-425 | In no reachable state does the sender meet an acknowledgement it cannot process. |
| Block1Protocol.PassesIff | lwm2m/wakaama/coap/block.c:202-294 | Once a transfer has begun, a delayed request of an earlier write to the path leaves it alone if and only if it is too large, or a block that is neither another block 0, nor taken for the one that is due, nor a last one from further ahead. |
| Block1Progress.DeliveredIff | lwm2m/wakaama/core/packet.c:341-425 | Whatever an earlier transfer has left behind, stop and wait over a faithful network always ends with 2.04 after the computed number of exchanges, and has then delivered exactly the payload, once, if and only if the payload is at most 2^20 agreed blocks. |
| Block1Progress.NumbersRunOut | lwm2m/wakaama/core/packet.c:341-385 | When the block numbers run out, the next request carries no option and is delivered as if it were the whole payload. |
| Block2.HandleGet | lwm2m/wakaama/core/packet.c:610-648 | The answer to a request for content: the asked block in the smaller of both sizes, or the first block of a long payload, or the whole payload, or 4.02 for a block behind its end. |
| Block2.Client.SendGetBlock2 | lwm2m/wakaama/core/packet.c:429-473 | Asks for a block under the next message id, moves what is stored of the transfer to that id and makes the request live. |
| Block2.Client.HandleResponse | lwm2m/wakaama/core/packet.c:735-833 | A payload too long for the requester makes it ask for block 0; a block is stored and the next one asked for, or the completed payload reported and forgotten; only the live request is ever called back. |
| Block2Protocol.StepKeepsInv | lwm2m/wakaama/core/packet.c:429-473 | Every answer with no stray transfer in the way, stray response, foreign exchange and expiry keeps the invariant: while block k is asked for, exactly blocks 0 to k-1 are found under the live message id. |
| Block2Protocol.CompletesOnlyWithThePayload | lwm2m/wakaama/core/packet.c:610-833 | For all pairs of valid block sizes and every run in which no answer makes the transfer move behind a stray one under the next message id: each completed payload shown to the callback is the responder's payload; while the numbers last it is shown at most once, or at most twice when it fits the responder's blocks but not the requester's. |
| Block2Protocol.WaitingSurvivesIff | lwm2m/wakaama/core/packet.c:429-462 | An answer after which a later block is asked for keeps what is needed of the blocks before it if and only if no stray transfer waits under the next message id in front of it, or one with the very same data. |
| Block2Protocol.StrayCompletes | lwm2m/wakaama/core/packet.c:735-833 | Witness: a stray block 0 under the message id used next but one takes the place of the transfer, and block 2 of three completes with the stray payload. |
| Block2Protocol.DeliversThePayload | lwm2m/wakaama/core/packet.c:429-640 | Answered requests alone finish the transfer of every payload of up to 2^20 agreed blocks after the computed number of answers, with exactly those completions. |
| Block2Protocol.NeverEnds | lwm2m/wakaama/core/packet.c:429-473 | A longer payload is never finished: after the last number the requester asks for the first block again. |
| Block2Protocol.EndsIff | lwm2m/wakaama/core/packet.c:429-473 | An answered transfer ends if and only if the payload is at most 2^20 agreed blocks. |
| CoapOptions.ReadExtendedInverse | lwm2m/wakaama/coap/er-coap-13/er-coap-13.c:103-146 | Reading an extended delta or length undoes writing it, for every value a header can carry. |
| CoapOptions.PutOptionHeader | lwm2m/wakaama/coap/er-coap-13/er-coap-13.c:121-146 | Writes exactly the header bytes of a delta and a length at the given place, keeps what is before it and returns their number. |
| CoapOptions.PutExtension | lwm2m/wakaama/coap/er-coap-13/er-coap-13.c:127-143 | Writes the 0, 1 or 2 extension bytes of a delta or length and nothing before them. |
| CoapOptions.ParseIntOption | lwm2m/wakaama/coap/er-coap-13/er-coap-13.c:89-99 | Reads big-endian option bytes with the 32-bit shifts of the loop. |
| CoapOptions.ParseIntInverse | lwm2m/wakaama/coap/er-coap-13/er-coap-13.c:89-169 | Every 32-bit value survives the minimal encoding of an integer option. |
| CoapOptions.Log2 | lwm2m/wakaama/coap/er-coap-13/er-coap-13.c:76-85 | The exponent of the largest power of two not above the value, 0 for 0. |
| CoapOptions.UnpackPackBlock | lwm2m/wakaama/coap/er-coap-13/er-coap-13.h:287-302 | A packed block option is unpacked to its number and more flag and to its size rounded down to a power of two, so exactly for the block sizes in use. |
| CoapOptions.ParsedOffsetIsNumTimesSize | lwm2m/wakaama/coap/er-coap-13/er-coap-13.c:894-909 | The offset the parser computes by masking and shifting is number times size for every packed value. |
| Coap.FieldsAscending | lwm2m/wakaama/coap/er-coap-13/er-coap-13.c:647-664 | The lines of the serializer are in ascending option order for every message, so no delta is negative. |
| Coap.PutValue | lwm2m/wakaama/coap/er-coap-13/er-coap-13.h:249-285 | Appends one option: its header for the delta from the number before it and its value. |
| Coap.PutValues | lwm2m/wakaama/coap/er-coap-13/er-coap-13.c:217-231 | Appends one option for each item of a list. |
| Coap.PutField | lwm2m/wakaama/coap/er-coap-13/er-coap-13.h:249-302 | Appends the options of one line so that what is written and what the remaining lines will write still make up the whole message. |
| Coap.PutHeader | lwm2m/wakaama/coap/er-coap-13/er-coap-13.c:622-639 | The four header bytes and the token. |
| Coap.PutAddressFields | lwm2m/wakaama/coap/er-coap-13/er-coap-13.c:648-655 | The option lines up to Uri-Path write their part of the message. |
| Coap.PutContentFields | lwm2m/wakaama/coap/er-coap-13/er-coap-13.c:656-663 | The option lines behind Uri-Path write theirs. |
| Coap.PutPayload | lwm2m/wakaama/coap/er-coap-13/er-coap-13.c:671-679 | Appends the marker and the payload, or nothing if it is empty. |
| Coap.SerializeMessage | lwm2m/wakaama/coap/er-coap-13/er-coap-13.c:610-695 | Fills exactly the bytes of the serialized message and returns their number. |
| CoapParser.ParseMessage | lwm2m/wakaama/coap/er-coap-13/er-coap-13.c:698-932 | Version, type, code, message id, token, options and payload of every datagram whose header and token are complete, or the error of its first bad option. |
| CoapParser.ParseOptionLoop | lwm2m/wakaama/coap/er-coap-13/er-coap-13.c:748-926 | The loop accumulates option numbers from their deltas, stores each value by the kind of its number, and ends on every input with the options and the payload or with the error of the first bad option. |
| CoapParser.ParsedIsCanonical | lwm2m/wakaama/coap/er-coap-13/er-coap-13.c:698-932 | Whatever is parsed, no list option is present without items and every block size is a power of two. |
| CoapRoundTrip.ParseOneOption | lwm2m/wakaama/coap/er-coap-13/er-coap-13.c:759-798 | One encoded option anywhere in a datagram is read back as its number and value. |
| CoapRoundTrip.ParseSerialize | lwm2m/wakaama/coap/er-coap-13/er-coap-13.c:610-932 | Parsing a serialized message gives back type, code, message id, token, all options and payload. |
| CoapRoundTrip.RoundTripIff | lwm2m/wakaama/coap/er-coap-13/er-coap-13.c:610-932 | That holds if and only if no list option is set without items, no token is set empty and block sizes are powers of two, for every message of up to 65535 bytes. |
| CoapSize.OptionSize | lwm2m/wakaama/coap/er-coap-13/er-coap-13.c:506-578 | The room reserved for one option; list options add up all their items. |
| CoapSize.SerializeGetSize | lwm2m/wakaama/coap/er-coap-13/er-coap-13.c:500-606 | The size is the header, the token, the room of each option that is set, and the payload with its marker. |
| CoapSize.IntegerLineFits | lwm2m/wakaama/coap/er-coap-13/er-coap-13.c:150-169 | The five bytes reserved for an integer option suffice if and only if its value takes at most three bytes or its delta is at most twelve. |
| CoapSize.SizeLeft | lwm2m/wakaama/coap/er-coap-13/er-coap-13.c:500-606 | The computed size exceeds the message by exactly what the options leave of their room, less one byte for each wide Max-Age or Size with too few options in front of it. |
| CoapSize.SizeIsEnoughIff | lwm2m/wakaama/coap/er-coap-13/er-coap-13.c:500-606 | The computed size is enough for a message if and only if what its options leave of their room makes up for a Max-Age of four bytes with nothing between If-Match and it, and for such a Size with nothing between Uri-Query and it. |
| CoapSize.SizeIsEnough | lwm2m/wakaama/coap/er-coap-13/er-coap-13.c:500-606 | In particular the size is enough for every message whose Max-Age and Size fit into three bytes. |
| CoapSize.SizeTooSmall | lwm2m/wakaama/coap/er-coap-13/er-coap-13.c:500-606 | Witness: with a four-byte Max-Age the message is one byte longer than the computed size. |
| Tlv.FromBigEndianInverse | lwm2m/wakaama/data/tlv.c:68-138 | The bytes of a number, most significant first, give back the number. |
| Tlv.DecodeIntInverse | lwm2m/wakaama/data/tlv.c:68-102 | Every signed 64-bit integer is recovered from its TLV bytes, of whatever width was chosen. |
| Tlv.DecodeUIntInverse | lwm2m/wakaama/data/tlv.c:104-138 | So is every unsigned one. |
| Tlv.UnsignedAsSigned | lwm2m/wakaama/data/data.c:294-365 | Bytes of an unsigned integer read as a signed one give the same number if and only if its top bit is clear. |
| Tlv.Header | lwm2m/wakaama/data/tlv.c:220-279 | The header is as long as the length pass predicted. |
| Tlv.Serialize | lwm2m/wakaama/data/tlv.c:501-650 | The bytes of a list, at every depth, are as many as the length pass predicted. |
| Tlv.GetLength | lwm2m/wakaama/data/tlv.c:406-498 | The length pass returns the length of the serialization, or -1 if and only if some entry at some depth has no TLV form. |
| Tlv.PutEntry | lwm2m/wakaama/data/tlv.c:520-639 | One round of the loop appends exactly the bytes of the entry. |
| Tlv.TlvSerialize | lwm2m/wakaama/data/tlv.c:501-650 | A fresh buffer filled exactly with the serialization, or -1 and no buffer. |
| TlvParser.Decode | lwm2m/wakaama/data/tlv.c:281-342 | A decoded record lies wholly within the buffer. |
| TlvParser.ParseEntry | lwm2m/wakaama/data/tlv.c:381-397 | The entry of one record: a container with what its value parses to, or opaque bytes. |
| TlvParser.TlvParse | lwm2m/wakaama/data/tlv.c:345-403 | The entries of all records from the start of the buffer to the first byte string that is none, or 0 if a container is empty; it ends on every buffer. |
| TlvParser.DecodeHeader | lwm2m/wakaama/data/tlv.c:220-342 | A header is decoded to the type, id and length it was made from, for all lengths up to 2^24 - 1. |
| TlvParser.ParseSerialize | lwm2m/wakaama/data/tlv.c:345-650 | The serialization of any supported tree in front of any tail is parsed to its shape followed by what the tail parses to. |
| TlvParser.RoundTripIff | lwm2m/wakaama/data/tlv.c:345-650 | Parsing gives back the shape and the ids with leaves as opaque bytes if and only if no container at any depth is empty; otherwise it fails. |
| TlvParser.TrailingBytesIgnored | lwm2m/wakaama/data/tlv.c:345-403 | Bytes behind the entries that do not start a record are passed over in silence. |
| TlvParser.IntegerResourceRoundTrip | lwm2m/wakaama/data/data.c:294-365 | A signed integer resource, serialized and parsed, comes back as one opaque value that decodes to the integer. |
| TlvParser.UnsignedResourceRoundTrip | lwm2m/wakaama/data/data.c:375-446 | The same for an unsigned one. |
| Text.ValueOfDigits | lwm2m/wakaama/core/utils.c:235-265 | The printed digits of a number have that number as their value. |
| Text.UIntToText | lwm2m/wakaama/core/utils.c:235-265 | Prints the decimal text, terminated if there is room, writes nothing outside its part of the buffer, and returns 0 if and only if it does not fit. |
| Text.PrintBackwards | lwm2m/wakaama/core/utils.c:244-252 | The digits so far, behind the digits still to be printed, are the text of the number. |
| Text.MoveDown | lwm2m/wakaama/core/utils.c:254-262 | The overlapping move keeps the moved bytes and touches no others. |
| Text.IntToText | lwm2m/wakaama/core/utils.c:197-233 | The same for signed integers; only the least integer needs one more byte than its text. |
| Text.MinToText | lwm2m/wakaama/core/utils.c:206-220 | The least integer is printed through a constant. |
| Text.ReadUInt | lwm2m/wakaama/core/utils.c:105-132 | The value of the text, or nothing. |
| Text.ReadInt | lwm2m/wakaama/core/utils.c:60-103 | The value of the text with its sign, or nothing. |
| Text.ReadDigits | lwm2m/wakaama/core/utils.c:114-127 | The digit loop with its 64-bit wrap and its overflow test. |
| Text.ReadsUIntIff | lwm2m/wakaama/core/utils.c:105-132 | A text is read as its value if and only if it is a non-empty string of digits of at most 2^64 - 1. |
| Text.OverflowIff | lwm2m/wakaama/core/utils.c:114-126 | The first digit that takes a number over 2^64 - 1 is refused, but for the values 2^64 to 2^64 + 3, from which reading goes on at 0 to 3. |
| Text.ReadsUIntModulo | lwm2m/wakaama/core/utils.c:105-132 | For every text: it is accepted if and only if it is a non-empty string of digits none of which comes behind a value that is, modulo 2^64, above (2^64 - 1) / 10, and is then read as its value modulo 2^64. |
| Text.ReadsIntModulo | lwm2m/wakaama/core/utils.c:60-103 | The same for signed numbers, whose value modulo 2^64 has to be in the 64-bit range. |
| Text.TwiceOverflowing | lwm2m/wakaama/core/utils.c:105-132 | Witness: the 21 digits of 184467440737095516165 are read as 5. |
| Text.OverflowsEndlessly | lwm2m/wakaama/core/utils.c:105-132 | There is no end to such texts: 2^64 with any number of zeros behind it is read as 0. |
| Text.ReadsIntIff | lwm2m/wakaama/core/utils.c:60-103 | Digits behind an optional minus are read as their value if and only if it is in the 64-bit range. |
| Text.IntTextRoundTrip | lwm2m/wakaama/core/utils.c:60-233 | Every 64-bit integer is read back from its text. |
| Text.UIntTextRoundTrip | lwm2m/wakaama/core/utils.c:105-265 | So is every unsigned one. |
| Uri.PutId | lwm2m/wakaama/core/uri.c:289-357 | Prints a slash and a number, or reports that they do not fit. |
| Uri.ToString | lwm2m/wakaama/core/uri.c:289-357 | Prints the whole text of a path and returns its length if and only if the buffer is long enough (and at least two bytes). |
| Uri.TextFits | lwm2m/wakaama/core/uri.c:289-357 | 24 bytes are enough for every path. |
| Uri.ReadNumber | lwm2m/wakaama/core/uri.c:57-83 | The number up to the next slash or the end, and its length; or malformed. |
| Uri.ParsesDigits | lwm2m/wakaama/core/uri.c:57-83 | Printed digits are read back up to the slash or the end behind them. |
| Uri.ReadLevel | lwm2m/wakaama/core/uri.c:220-287 | One level: accepted if and only if the number is below the reserved id, with the slash behind it consumed. |
| Uri.ParseText | lwm2m/wakaama/core/uri.c:220-287 | A path of one to four ids behind a slash, with all of the buffer consumed, or nothing. |
| Uri.ParseLevels | lwm2m/wakaama/core/uri.c:240-285 | The nested levels read one id after the other until the text ends, and fail on a malformed or reserved id. |
| Uri.TextIsPrefixClosed | lwm2m/wakaama/core/uri.c:220-287 | Every accepted text gives a path with no level set below one that is not. |
| Uri.TextRoundTripIff | lwm2m/wakaama/core/uri.c:220-357 | lwm2m_stringToUri undoes uri_toString if and only if the path is prefix-closed. |
| UriPath.IdSegment | lwm2m/wakaama/coap/transaction.c:181-218 | The six-byte buffer holds the text of every 16-bit id. |
| UriPath.BuildPath | lwm2m/wakaama/coap/transaction.c:181-218 | The segments of the alternative path and of the set levels, in order. |
| UriPath.ReadField | lwm2m/wakaama/core/uri.c:86-92 | The id of a segment, if it is a number below the reserved id. |
| UriPath.DecodePath | lwm2m/wakaama/core/uri.c:95-218 | The request type by the first segment, the alternative path and the code, with the ids of the segments behind it; on error the type is unknown and the path reset. |
| UriPath.CompareAlt | lwm2m/wakaama/core/uri.c:127-143 | The character loop decides whether the segment passes for the alternative path. |
| UriPath.DecodeLevels | lwm2m/wakaama/core/uri.c:157-218 | Each segment sets its level unless it is empty; the path is reset if and only if a segment is bad, is below an unset level, or is one too many. |
| UriPath.DecodedIsPrefixClosed | lwm2m/wakaama/core/uri.c:95-218 | Every accepted path of every request is prefix-closed. |
| UriPath.AltMatchesIff | lwm2m/wakaama/core/uri.c:127-143 | A first segment passes for the alternative path if and only if it is a prefix of it. |
| UriPath.PathRoundTripIff | lwm2m/wakaama/coap/transaction.c:181-218 | uri_decode of the segments built for a prefix-closed path gives back that path, with and without an alternative path, if and only if the alternative path is not "rd" or "bs". |
| Base64.PutBlock | lwm2m/wakaama/core/utils.c:963-970 | Three bytes become the four characters of their block; nothing else is written. |
| Base64.Encode | lwm2m/wakaama/core/utils.c:982-1025 | The whole encoded text and its length, or 0 if and only if the buffer is too small. |
| Base64.PutRest | lwm2m/wakaama/core/utils.c:999-1019 | The last block, with one or two bytes, is padded. |
| Base64.PutDecoded | lwm2m/wakaama/core/utils.c:1081-1116 | One round appends the one to three bytes of a block, or reports an error. |
| Base64.Decode | lwm2m/wakaama/core/utils.c:1069-1119 | The decoded bytes and their number, or 0 on any error or if they do not fit. |
| Base64.DecodeAll | lwm2m/wakaama/core/utils.c:1069-1119 | The loop succeeds if and only if the reference decoding does, with its bytes. |
| Base64.DecodedSizeExact | lwm2m/wakaama/core/utils.c:1027-1056 | Whatever text is decoded, the bytes are as many as utils_base64GetDecodedSize said. |
| Base64.BlockRoundTrip | lwm2m/wakaama/core/utils.c:963-1116 | A block is decoded to its bytes through both padding cases. |
| Base64.RoundTrip | lwm2m/wakaama/core/utils.c:972-1119 | Decoding undoes encoding for every byte string, and both size functions are exact. |
| RegisterPayload.BufferLength | lwm2m/wakaama/core/objects.c:781-876 | The size pass returns the length of the text of the objects it counts, and one. |
| RegisterPayload.InstancesSize | lwm2m/wakaama/core/objects.c:848-864 | The instance part of the size pass adds the length of their entries. |
| RegisterPayload.ObjectSize | lwm2m/wakaama/core/objects.c:808-865 | So does the pass for one object. |
| RegisterPayload.PutTemplate | lwm2m/wakaama/core/objects.c:757-779 | Writes the start of an entry if and only if it fits with a byte to spare. |
| RegisterPayload.StringCopy | lwm2m/wakaama/core/utils.c:916-932 | Copies a string if and only if there is room for its terminator. |
| RegisterPayload.PutVersion | lwm2m/wakaama/core/objects.c:923-943 | Writes the version entry whenever there is room. |
| RegisterPayload.PutHead | lwm2m/wakaama/core/objects.c:917-959 | Writes the entry of the object itself, if it has one, and leaves the start of the first instance's entry behind it. |
| RegisterPayload.PutInstance | lwm2m/wakaama/core/objects.c:964-980 | Writes one instance entry: the first over the start already there, the others behind a copy of it. |
| RegisterPayload.PutInstances | lwm2m/wakaama/core/objects.c:961-981 | Writes the entries of all instances. |
| RegisterPayload.PutObject | lwm2m/wakaama/core/objects.c:910-982 | Writes the entries of one object whenever there is room. |
| RegisterPayload.GetRegisterPayload | lwm2m/wakaama/core/objects.c:878-992 | With room for the text and one byte the whole payload is written, its last comma replaced by the terminator, and its length returned. |
| RegisterPayload.SizeEnoughIff | lwm2m/wakaama/core/objects.c:781-992 | The size pass is exact for every object list without object 21, and too small for every list with it. |
| RegisterPayload.PrintPayload | lwm2m/wakaama/core/objects.c:781-992 | Both passes together never fail and produce the text without its last comma, for every list without object 21. |
| RegisterReader.ParseVersion | lwm2m/wakaama/core/registration.c:1544-1604 | The version of the attribute, with or without quotes, or an error. |
| RegisterReader.ParseNumbers | lwm2m/wakaama/core/registration.c:1573-1602 | Major and minor number around the dot, each at most 255. |
| RegisterReader.ParseAttributes | lwm2m/wakaama/core/registration.c:1521-1614 | The attribute loop finds the version, at most one that is not 0.0, and ignores other attributes. |
| RegisterReader.ParseInstance | lwm2m/wakaama/core/registration.c:1497-1514 | The instance id behind the slash, which may be missing. |
| RegisterReader.ParseEntry | lwm2m/wakaama/core/registration.c:1462-1617 | The object with its version, or the instance, that one entry names; nothing if it is malformed or an id is reserved. |
| RegisterReader.ReadValue | lwm2m/wakaama/core/registration.c:1334-1349 | An attribute's value, quoted or not, and where it ends. |
| RegisterReader.Split | lwm2m/wakaama/core/registration.c:1307-1350 | One attribute behind spaces and a separator. |
| RegisterReader.ParseRoot | lwm2m/wakaama/core/registration.c:1352-1460 | The alternative path and the format of the link, or nothing if it is no link to the LwM2M root. |
| RegisterReader.Apply | lwm2m/wakaama/core/registration.c:1648-1688 | An object entry sets the version of its object, an instance entry adds its instance, both adding the object if it is new; anything else must be the link, once. |
| RegisterReader.DecodePayload | lwm2m/wakaama/core/registration.c:1619-1704 | Objects with versions and instances, format and alternative path of a payload of entries between commas, at most one of which is the link; nothing if any entry is neither. It ends on every payload. |
| RegisterReader.Scan | lwm2m/wakaama/core/registration.c:1538-1538 | The first position of a byte. |
| RegisterReader.SkipSpaces | lwm2m/wakaama/core/registration.c:1530-1534 | The first position that is not a space. |
| RegisterReader.TrimEnd | lwm2m/wakaama/core/registration.c:1478-1478 | The text without its trailing spaces. |
| RegisterReader.ScanBack | lwm2m/wakaama/core/registration.c:1379-1383 | The last position of a byte. |
| RegisterRoundTrip.GetIdOfPlain | lwm2m/wakaama/core/registration.c:1462-1617 | A plain object entry is read as its id, for every valid id. |
| RegisterRoundTrip.GetIdOfInstance | lwm2m/wakaama/core/registration.c:1462-1617 | An instance entry is read as both ids. |
| RegisterRoundTrip.GetIdOfVersion | lwm2m/wakaama/core/registration.c:1521-1616 | A version entry is read as its id and version, for all 65536 versions. |
| RegisterRoundTrip.ParsesLink | lwm2m/wakaama/core/registration.c:1352-1460 | The link with the default path is read back with its format, in every build. |
| RegisterRoundTrip.DecodeObject | lwm2m/wakaama/core/registration.c:1619-1704 | The entries of an object in front of any rest add exactly that object, its version and its instances. |
| RegisterRoundTrip.PayloadRoundTrip | lwm2m/wakaama/core/registration.c:1462-1704 | prv_decodeRegisterPayload of object_getRegisterPayload's output gives back the format and exactly the objects but Security, with versions and instances, for every sorted object list of valid ids, as long as every entry starts within 65536 bytes. |
| RegisterRoundTrip.PayloadRoundTripIff | lwm2m/wakaama/core/registration.c:1462-1704 | For every sorted object list of any length that holds if and only if no id but that of the Security object is the reserved 65535 and no entry starts behind the first 65536 bytes. |
| RegisterRoundTrip.LateEntryIsLost | lwm2m/wakaama/core/registration.c:1631-1691 | When an entry starts behind the first 65536 bytes, where its 16-bit position wraps around, the registration is refused or its last entry is missing. |
| RegisterRoundTrip.NamesOnly | lwm2m/wakaama/core/registration.c:1462-1617 | Bytes from the start of an entry on, cut off anywhere, are read as that entry, perhaps with a shortened version, or as none. |
| RegisterRoundTrip.DecodedIsValid | lwm2m/wakaama/core/registration.c:1619-1704 | Whatever payload is accepted, no object and no instance has the reserved id. |
| RegistrationQuery.QueryLength | lwm2m/wakaama/core/registration.c:69-145 | The length pass returns the length of the query and one, for every binding, lifetime, number and name. |
| RegistrationQuery.BindingLength | lwm2m/wakaama/core/registration.c:110-133 | So does its binding part. |
| RegistrationQuery.PutLetters | lwm2m/wakaama/core/registration.c:199-224 | Writes the letters of the flags in their order if and only if they fit. |
| RegistrationQuery.PutBinding | lwm2m/wakaama/core/registration.c:199-230 | Writes the binding parameter whenever there is a byte to spare. |
| RegistrationQuery.PutName | lwm2m/wakaama/core/registration.c:155-170 | Writes version, endpoint name and number if and only if they fit with a terminator. |
| RegistrationQuery.PutLifetime | lwm2m/wakaama/core/registration.c:233-241 | Writes the lifetime parameter whenever there is a byte to spare. |
| RegistrationQuery.PrintQuery | lwm2m/wakaama/core/registration.c:147-253 | The query with its terminator and their length, or 0 if and only if they do not fit. |
| RegistrationQuery.RegistrationQueryOf | lwm2m/wakaama/core/registration.c:69-253 | Both passes agree exactly: the buffer of the computed length is filled to its last byte. |
| SortedList.Walk | lwm2m/wakaama/core/list.c:29-40 | The walk over heap nodes stops at the node behind which the id belongs. |
| SortedList.Add | lwm2m/wakaama/core/list.c:21-44 | The relinked nodes are the old ones with the new one at its place. |
| SortedList.Find | lwm2m/wakaama/core/list.c:47-58 | On a sorted list: a node of the list with the id, or null if and only if there is none. |
| SortedList.Remove | lwm2m/wakaama/core/list.c:61-96 | Exactly one node is unlinked and handed out, or none. |
| SortedList.NewId | lwm2m/wakaama/core/list.c:98-113 | The end of the run 0, 1, 2, ... with which the ids start, in 16 bits. |
| SortedList.AddKeepsSorted | lwm2m/wakaama/core/list.c:21-44 | Adding an id that is not there keeps the list strictly sorted. |
| SortedList.RemovePosIff | lwm2m/wakaama/core/list.c:61-96 | On a sorted list removal unlinks the one node with the id, and none if and only if there is none. |
| SortedList.RemoveKeepsSorted | lwm2m/wakaama/core/list.c:61-96 | Removal keeps the list sorted, takes that id out and keeps all others. |
| SortedList.RemoveUndoesInsert | lwm2m/wakaama/core/list.c:21-96 | Removal at the place of an insertion gives back the list before it. |
| SortedList.NewIdIsLowestFree | lwm2m/wakaama/core/list.c:98-113 | The new id is not in the list if and only if the list has fewer than 65536 nodes, and is then the lowest such id. |
| Transactions.OtherMidPasses | lwm2m/wakaama/coap/transaction.c:118-147 | A response with another message id never finishes or changes a transaction, whatever its token: separate responses with their own id are not matched. |
| Transactions.TransactionList.TakeMid | lwm2m/wakaama/coap/transaction.c:149-254 | Hands out the next message id, modulo 65536. |
| Transactions.TransactionList.RemoveAt | lwm2m/wakaama/coap/transaction.c:279-285 | Removal by message id from the sorted list unlinks exactly that transaction. |
| Transactions.TransactionList.ReplaceAt | lwm2m/wakaama/coap/transaction.c:368-452 | A change of a transaction's fields keeps its place and the list sorted. |
| Transactions.TransactionList.SendAt | lwm2m/wakaama/coap/transaction.c:368-452 | One transmission with its back-off, or the one callback and removal; everything else stays. |
| Transactions.TransactionList.Step | lwm2m/wakaama/coap/transaction.c:454-498 | Sends or gives up exactly the due transactions, once each although the loop removes from the list it walks, and returns the least of the given timeout and all waits, with a floor of one second. |
| Transactions.TransactionList.HandleResponse | lwm2m/wakaama/coap/transaction.c:287-366 | The first transaction of the peer that reacts is kept or finished with one callback; no other changes. |
| Transactions.TransactionList.Create | lwm2m/wakaama/coap/transaction.c:149-254 | A transaction of the next message id is inserted at its place and sent once, whether or not the id is in use; the list stays sorted if it is not. |
| Transactions.StepFromIs | lwm2m/wakaama/coap/transaction.c:454-498 | The loop that removes while it walks does what stepping each transaction by itself does, with the same log and timeout. |
| TransactionRuns.NextKeepsInv | lwm2m/wakaama/coap/transaction.c:149-498 | Creation, replies, resets, acknowledgements and steps keep the invariant of distinct message ids, schedule and callbacks. |
| TransactionRuns.RunKeepsInv | lwm2m/wakaama/coap/transaction.c:149-498 | So does every run. |
| TransactionRuns.Conservation | lwm2m/wakaama/coap/transaction.c:279-452 | In every run in which live transactions are at most 65535 allocations old: the list stays strictly sorted, no transaction is sent more than five times, and one has had its callback, exactly one, if and only if it was sent and has left the list. |
| TransactionRuns.Schedule | lwm2m/wakaama/coap/transaction.c:368-452 | In every run, without an answer: after k sends the next is due 2 * (2^k - 1) seconds after the first, none is earlier, and nothing is given up before 62 seconds. |
| TransactionRuns.TimeoutReachesEveryDue | lwm2m/wakaama/coap/transaction.c:454-498 | The returned timeout never passes a due time by more than the floor of one second, never exceeds the given one by more than that floor, and stays positive. |
| TransactionRuns.PunctualStaysPunctual | lwm2m/wakaama/coap/transaction.c:454-498 | When nothing was overdue before, nothing is due any more afterwards and the timeout passes no due time at all. |
| TransactionRuns.FreshIff | lwm2m/wakaama/coap/transaction.c:149-254 | The next message id is unused if and only if no live transaction's age is a multiple of 65536 allocations. |
| TransactionRuns.CreateSortedIff | lwm2m/wakaama/coap/transaction.c:149-254 | A new transaction keeps the list strictly sorted if and only if its message id is unused. |
| Registration.Client.Start | lwm2m/wakaama/core/registration.c:1018-1081 | Candidates are reset, unordered ones begun, and of the ordered ones the first of the lowest order; the first unreadable resource ends the loop. |
| Registration.Client.StartServer | lwm2m/wakaama/core/registration.c:506-528 | One server is put into hold-off for its initial delay, or nothing changes if a resource cannot be read. |
| Registration.Client.HandleSequenceFailure | lwm2m/wakaama/core/registration.c:530-590 | The next sequence after its delay or the final failure, with bootstrap required or waiting ordered servers failed where the Server object asks for it, and the hand-on of an ordered server in its first sequence. |
| Registration.Client.FailOrdered | lwm2m/wakaama/core/registration.c:561-575 | Every waiting server becomes failed, and no other changes. |
| Registration.Client.HandleReply | lwm2m/wakaama/core/registration.c:592-722 | A success registers the server and may hand on; a continuation keeps it pending; anything else counts as a failed attempt, then as a failed sequence. A server that is not pending is left alone. |
| Registration.Client.Step | lwm2m/wakaama/core/registration.c:2051-2131 | Each server is stepped by itself, and the returned timeout is exactly the least of the given one and all waits. |
| RegistrationRuns.StartedIs | lwm2m/wakaama/core/registration.c:1018-1081 | A start begins every unordered candidate and, of the ordered ones, exactly one of the lowest order. |
| RegistrationRuns.RunKeepsRetryOk | lwm2m/wakaama/core/registration.c:530-628 | In every run attempt and sequence numbers and the number of registrations sent agree for every server. |
| RegistrationRuns.RegistrationBound | lwm2m/wakaama/core/registration.c:530-628 | In every run no server is sent more than max(1, attempts) * max(1, sequences) registrations after a start. |
| RegistrationRuns.FailureIff | lwm2m/wakaama/core/registration.c:530-628 | A failed attempt makes the server failed if and only if all attempts of all sequences are used; otherwise it is held off for the delay times 2^(attempt - 1), or for the delay between sequences. |
| RegistrationRuns.FailureAdvances | lwm2m/wakaama/core/registration.c:530-628 | Every failed attempt but the last is followed by a registration with a lexicographically higher sequence and attempt number, both within their limits. |
| RegistrationRuns.FailedIffAllTried | lwm2m/wakaama/core/registration.c:530-628 | In every run in which no registration of a started server succeeds and no start happens: the server is failed if and only if max(1, attempts) * max(1, sequences) of its registrations have failed, and no more are sent. |
| RegistrationRuns.BegunTries | lwm2m/wakaama/core/registration.c:506-528 | A start that begins a server puts it at the first of its tries, with none sent. |
| RegistrationRuns.FailsAfterAllTries | lwm2m/wakaama/core/registration.c:530-628 | A started server that is stepped whenever it is due and never succeeds is sent one registration a round and is failed after exactly that many. |
| RegistrationOrder.RunKeepsOrder | lwm2m/wakaama/core/registration.c:1018-1081 | Every run of starts, steps, replies and failures keeps the order and lets no server wait anew. |
| RegistrationOrder.OrderedSafety | lwm2m/wakaama/core/registration.c:1018-1081 | In every run, while an ordered server waits to be started, none of a strictly higher order is started. |
| RegistrationOrder.NeverStalls | lwm2m/wakaama/core/registration.c:530-700 | Without blocking servers, in every run: while an ordered server waits, another is in its first sequence, at whose end one is started. |
| RegistrationOrder.SuccessHandsOnIff | lwm2m/wakaama/core/registration.c:686-700 | When a server registers and no other is in its first sequence, a waiting one is started if and only if it is in its first sequence itself or does not block. |
| RegistrationOrder.BlockingCanStall | lwm2m/wakaama/core/registration.c:686-700 | Witness: a blocking server that succeeds in its second sequence leaves the next one waiting with nothing left to start it. |
| Lease.RunKeepsInv | lwm2m/wakaama/core/registration.c:2075-2101 | Every run of steps and answers keeps the lease invariant. |
| Lease.LeaseSafety | lwm2m/wakaama/core/registration.c:2075-2101 | For a lifetime above 93 seconds and a caller that steps by the timeout and after each answer: every renewal goes out by registration + lifetime - 93, and is answered or given up within 74 seconds and at least 19 seconds before the lifetime ends. |
| Lease.LateRenewal | lwm2m/wakaama/core/registration.c:2075-2101 | For every lifetime between 94 and 124 seconds: a run in which a caller who only keeps to the timeouts renews late. |
| Lease.NeverLateIff | lwm2m/wakaama/core/registration.c:2075-2101 | For a caller that only keeps to the timeouts renewals are never late if and only if the lifetime is at least 125 seconds. |
| Observe.Observer.GetWatcher | lwm2m/wakaama/core/observe.c:117-159 | The watcher found or added is that of the first agreeing path and the first of the server there, and a new path or watcher goes to the head. |
| Observe.Observer.HandleObserve | lwm2m/wakaama/core/observe.c:173-226 | A registration is refused without effect if and only if the path skips a level or there is no token; otherwise only that watcher changes, and its number is returned and counted up. |
| Observe.Observer.HandleWithdrawal | lwm2m/wakaama/core/observe.c:228-239 | A request to stop removes what observe_cancel removes for the found watcher's last message id. |
| Observe.Observer.WriteAttributes | lwm2m/wakaama/core/observe.c:334-431 | Only the parameters of that one watcher change, attributes that are set being overwritten and cleared ones dropped; refused attributes leave nothing but a possible new watcher. |
| Observe.Observer.Cancel | lwm2m/wakaama/core/observe.c:246-295 | The first watcher of that server and message id leaves, its path with it if it was the last, and no other. |
| Observe.Observer.SearchMid | lwm2m/wakaama/core/observe.c:255-282 | The first watcher with that message id and server, or the end. |
| Observe.Observer.Clear | lwm2m/wakaama/core/observe.c:297-332 | Exactly the paths of the object or the instance leave. |
| Observe.Observer.ValueChanged | lwm2m/wakaama/core/observe.c:469-513 | Exactly the active watchers of paths above, below or equal to the changed one are flagged. |
| Observe.Observer.Step | lwm2m/wakaama/core/observe.c:515-848 | Every path is read once and its watchers are stepped in list order, each notification taking the next message id, with the least of all waits as timeout. |
| Observe.Observer.StepPath | lwm2m/wakaama/core/observe.c:540-844 | The watchers of one path are stepped in order; those of a path that cannot be read are left alone. |
| Observe.Observer.StepOne | lwm2m/wakaama/core/observe.c:587-843 | One watcher is notified exactly when a due change or the end of its maximum period calls for it; then time, message id, number and stored value move on and the flag is cleared, and the timeout is lowered to what it waits for. |
| Observe.CancelledIs | lwm2m/wakaama/core/observe.c:246-295 | Cancelling takes out exactly one watcher, the first match of the first path that has one, or nothing. |
| Observe.WithdrawsOwnIff | lwm2m/wakaama/core/observe.c:228-239 | A request to stop removes one watcher of that server; it is the requested one if and only if no path in front has one of that server with the same message id. |
| Observe.WriteTakesEffectIff | lwm2m/wakaama/core/observe.c:402-425 | Each attribute that is written takes effect if and only if the watcher has no parameters yet or has this attribute set and not cleared with it. |
| ObserveRuns.StepsEach | lwm2m/wakaama/core/observe.c:515-848 | A step does to each watcher what it would do to it alone, and its timeout is no later than what any watcher waits for. |
| ObserveRuns.AcceptedIsTimely | lwm2m/wakaama/core/observe.c:173-226 | An accepted request starts a watcher on time. |
| ObserveRuns.RunStaysTimely | lwm2m/wakaama/core/observe.c:515-848 | Every punctual run keeps every active watcher on time. |
| ObserveRuns.NotificationGaps | lwm2m/wakaama/core/observe.c:515-848 | In every punctual run with successful reads, consecutive notifications to a watcher are at most pmax apart and, if pmin <= pmax, at least pmin apart. |
| ObserveRuns.NeverEarlyIff | lwm2m/wakaama/core/observe.c:744-776 | No notification comes before pmin is over if and only if pmin is not above pmax. |
| ObserveRuns.ChangeIsKept | lwm2m/wakaama/core/observe.c:591-816 | A flagged change stays flagged until a notification is sent: at once without attributes, as soon as pmin is over with it, and the timeout reaches that time. |
| ObserveRuns.ChangeIsNotifiedInTime | lwm2m/wakaama/core/observe.c:591-816 | In every punctual run with successful reads a change flagged for a watcher with a minimum period is notified no later than the end of that period and the step that was due when it was flagged, whichever is later. |
| Bootstrap.Client.DeleteInstanceAt | lwm2m/wakaama/core/objects.c:611-657 | One instance leaves its object and is no longer observed, or the callback's refusal is returned and nothing changes. |
| Bootstrap.Client.DeleteWholeObject | lwm2m/wakaama/core/objects.c:611-657 | The loop that restarts at the head ends, with the instances before the first refused one deleted and no longer observed. |
| Bootstrap.Client.DeleteOtherInstances | lwm2m/wakaama/core/bootstrap.c:996-1012 | The loop over the Security instances, which goes back to the head after every deletion, ends; it deletes all but the own instance until the first refusal, whose code it returns. |
| Bootstrap.Client.TagAllServers | lwm2m/wakaama/core/bootstrap.c:731-751 | All servers but that one are marked dirty. |
| Bootstrap.Client.HandleDeleteAll | lwm2m/wakaama/core/bootstrap.c:973-1030 | Refused by the state of the bootstrap server without effect on objects; otherwise every object is emptied in turn as far as its callbacks allow, observations with it, and the servers are tagged when the Security object went well. |
| Bootstrap.Client.RefreshServerList | lwm2m/wakaama/core/liblwm2m.c:218-260 | Both lists lose their dirty servers and gain one for each other Security instance that describes one, or the failure to read an instance is reported. |
| Bootstrap.Client.KeepClean | lwm2m/wakaama/core/liblwm2m.c:218-260 | Exactly the servers that are not dirty are kept, in order. |
| Bootstrap.Client.GetServers | lwm2m/wakaama/core/objects.c:1033-1198 | Adds a server for each Security instance that has none and describes one, to the list of its kind, or fails. |
| BootstrapDelete.DeleteOthersIff | lwm2m/wakaama/core/bootstrap.c:996-1012 | Every instance but the own one is deleted if and only if each can be; and then each one is either still there or among the deleted. |
| BootstrapDelete.DeleteFromIff | lwm2m/wakaama/core/objects.c:611-657 | An object is emptied if and only if no instance is refused. |
| BootstrapDelete.UnobservedOut | lwm2m/wakaama/core/observe.c:297-332 | Whatever is observed afterwards was observed before and is in no deleted instance. |
| BootstrapDelete.AfterObjectsIs | lwm2m/wakaama/core/bootstrap.c:987-1027 | The loop over all objects empties each one independently and tags the servers once at the Security object. |
| BootstrapDelete.RefreshLeavesOne | lwm2m/wakaama/core/liblwm2m.c:218-260 | After everything else was tagged a refresh leaves just the one server. |
| BootstrapDelete.DeleteAllEmpties | lwm2m/wakaama/core/bootstrap.c:973-1030 | After a Delete-All whose deletions succeed the Security object holds at most the bootstrap server's own instance, every other deletable object is empty, static ones are untouched and no deleted instance is observed. |
| BootstrapDelete.DeleteAllLeavesTheBootstrapServer | lwm2m/wakaama/core/bootstrap.c:973-1030 | The next refresh then leaves that bootstrap server as the only one in the two lists. |
| BootstrapDelete.LastObjectDecides | lwm2m/wakaama/core/bootstrap.c:987-1029 | When the Security object is not the last, the answer is that of the last object alone: other refusals go unnoticed. |

## Left out

- The Go packages, `lwm2m/src`, sockets, sessions and logging. A session is a peer, and session equality is equality of peers.
- Failing allocations, a failing clock (negative times) and the freeing of memory.
- `discover.c`, `management.c`, JSON and SenML JSON, printing and parsing of floats, object links in text: little structure to prove. TLV floats are fixed 4- or 8-byte images.
- The parts of `packet.c` for unknown peers (5.00), error payloads and unexpected outcomes of a Block2 answer. Writes are answered 2.04 by the application.
- The Content-Format and other headers that `prv_create_next_block_transaction` copies to the next request; requests are message id, block option and payload.
- Location-Query, which the serializer splits and the parser merges, and Proxy-Uri, which the parser refuses: neither is part of a message that is serialized.
- Linked lists other than those of `list.c` are fields of type `seq`: the model then does not capture aliasing of their nodes.
- Deregistration, changes of the list of servers during a run, and a missing Server object.
- In observations: failing reads of the value in the middle of a list, the one buffer shared by watchers of different formats, and the union of value types; values are reals.
- In bootstrap: commands other than Delete-All, and callbacks that report a deletion without removing the instance or remove it without reporting it.
- Blocks.BlockList.HandleBlock: one list holds one block type, because the source's matchers do not compare the type.
- Block2.Client.HandleResponse: block outcomes other than completion and continuation (4.08, retransmission) only keep the live request; the error the source then sends to the peer is not modelled.
- Block1.Sender.HandleAck: an acknowledgement on which the source divides by zero is excluded (exactly which, says `Block1.DividesByZeroIff`). A 4.13 without Block1 option for a message id that is not live is ignored, where the source follows a null pointer.
- Block1Protocol.DeliversOnlyThePayload: left out are runs in which a late copy of block 0 comes back, because the buffer is then reset and the payload lost (`Blocks.LateFirstBlock`), and runs in which a request of an earlier write completes that once more or does not pass (`Block1Protocol.PassesIff`), because its data are then mixed in (`Blocks.EarlierBlockMixes`).
- Block2Protocol.CompletesOnlyWithThePayload: left out are runs in which the live message id is handed out a second time, and runs in which the transfer moves behind a stray one under the next message id, because the wrong payload can then complete (`Block2Protocol.StrayCompletes`); `Block2Protocol.WaitingSurvivesIff` says exactly when.
- CoapParser.ParseMessage: datagrams that end within the header, the token or an option's extension bytes; the source reads past their end.
- Text.ReadUInt: the text is a sequence of its length; the source takes an `int` length.
- Uri.ReadNumber: numbers above 2^31 - 1 overflow the source's `int`; here they stay large and are refused like other ids out of range.
- Uri.ParseText: a path of which only some levels were read is not returned on failure; the source leaves them in the caller's structure.
- UriPath.CompareAlt: an alternative path ends where its sequence ends; the source compares with its terminator, so a segment with a zero byte is not modelled.
- UriPath.ReadField: an empty segment is read as 0 as in the source, which first looks for a slash in the byte behind it; here there is none.
- RegisterPayload.GetRegisterPayload: promises nothing when the buffer is smaller than the text and one byte, where the source can drop version numbers without noticing.
- RegisterReader.ParseAttributes: where the source looks one byte behind an entry for a separator (`registration.c:1607`), there is none.
- RegisterRoundTrip.PayloadRoundTripIff: for the default path only, not for an alternative one.
- TransactionRuns.Conservation: messages always serialize, and callbacks have no effect on the list of their own.
- Registration.Client.HandleReply: sending a registration always succeeds; delays are not cut to 64 bits, and attempt limits are small enough for `1 << (attempt - 1)`.
- RegistrationRuns.FailureIff: the source's `1 << (attempt - 1)` overflows from the 32nd attempt on, where the model goes on doubling the delay.
- RegistrationOrder.NeverStalls: without blocking servers, since with them it is false (`RegistrationOrder.BlockingCanStall`).
- Lease.LeaseSafety: one server, whose renewal has no payload and is answered neither with 4.01 nor with 2.31 or 4.13.
- Observe.Observer.HandleObserve: a value that cannot be decoded (5.00) and Observe numbers other than 0 and 1 (4.00).
- Observe.Observer.WriteAttributes: the readability check that precedes it.
- Observe.Observer.Step: a read that fails at the first notification of a path and breaks off its watchers.
- Bootstrap.Client.RefreshServerList: the lists after a failed refresh, which the source leaves half filled.
- ObserveRuns.NotificationGaps: the attributes, paths and watchers stay the same during the run, and all reads succeed.
- ObserveRuns.ChangeIsKept: for watchers with thresholds but no minimum period a change that crosses nothing stays flagged without a time by which it is sent, as in the source.
- BootstrapDelete.DeleteAllLeavesTheBootstrapServer: the asking bootstrap server is not itself marked dirty.
