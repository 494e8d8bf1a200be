# Token Swap instruction builders

This project models the wire format of the two instructions that the
solana-swap clients build for the SPL Token Swap program.

- **InitializePool** (opcode 0) is built by the localnet client only, as
  `createInitSwapInstruction`. It has eight account entries and a payload
  holding eight `nu64` fees, a `u8` curve type and a 32-byte curve-parameter
  blob.
- **Swap** (opcode 1) is built by both clients, as `createSwapInstruction`.
  It has ten fixed account entries, an optional writable host-fee entry
  appended after them, and a payload holding two 8-byte amount blobs.

The model also covers the size the localnet client gives the swap state
account (`POOL_SPACE`), and the calls each client makes with its constants.

The encoding primitives are modelled by their observable behaviour:

- bn.js `toBuffer()` gives minimal big-endian bytes (`Bytes.BEMinimal`).
- `Buffer.copy` into a zeroed buffer places the bytes at the front and cuts
  off whatever does not fit (`Layout.CopyInto`, `Bytes.LeftAlignPad`).
- buffer-layout's struct `encode` writes `u8`, little-endian `nu64` and
  fixed-width `blob` fields in order (`Layout.EncodeInto`, specified by
  `Layout.Encode`).

Each builder is a method that writes into arrays the way the client does.
It is proved equal to a specification function over values:
`TokenSwap.SwapInstruction` for Swap and `Localnet.InitSwapInstruction` for
InitializePool. The lemmas then state what those values contain. A
reference decoder (`Layout.Decode`) reads a layout back. It stands for the
ledger program's reading of the payload, and gives the round trips.

Modules (one file each): `Bytes` (bytes.dfy), `Layout` (layout.dfy),
`TokenSwap` (tokenswap.dfy, the parts shared by both clients), `Localnet`
(localnet.dfy) and `Devnet` (devnet.dfy).

## Wire-format notes

- **InitializePool payload length.** The payload is 98 bytes:
  1 + 8·8 + 1 + 32.
- **Amounts and curve parameters.** These go out big-endian, while the
  program reads little-endian `u64`s. The client copies bn.js's minimal
  big-endian bytes to the front of a zeroed 8- or 32-byte blob. The Swap
  the client submits (50 and 45) comes out the same either way, because
  each amount fits in one byte.
- **The InitializePool call.** The curve parameters 1,000,000 go out as
  `0F 42 40` followed by 29 zero bytes (`Localnet.InitScenario`).
- **Bytes that do not fit a blob.** `Buffer.copy` silently truncates a
  curve-parameter value longer than 32 bytes; this is not an error. The
  model truncates amounts of 2^64 or more the same way. The client can
  never pass such an amount, because bn.js refuses numbers of 2^53 or more.
- **InitializePool on devnet.** The devnet client does not build this
  instruction itself. It calls the Token Swap library, which is not part of
  this model.

`Layout.Result` models the errors that buffer-layout's struct encoding
raises:

- `OutOfRange` for a curve type of 256 or more, or a fee of 2^64 or more.
- `WrongShape` for a blob of the wrong length.

The client reaches only the first of these, and only through the curve
type. Its fees are constants that fit, and its blobs always have the right
length.

## Model

| member | source | states |
|---|---|---|
| Bytes.BEMinimal | localnet-ts/src/main.ts:72 | bn.js bytes are at least one byte long; zero is the single byte 0; a positive number never starts with a zero byte |
| Bytes.BEMinimalRoundTrip | localnet-ts/src/main.ts:283-285 | the big-endian value of the minimal bytes of n is n |
| Bytes.BEMinimalLength | localnet-ts/src/main.ts:283-285 | a number below 256^k takes at most k minimal bytes |
| Bytes.LE | localnet-ts/src/main.ts:58-65 | a `nu64` field is exactly its width in bytes |
| Bytes.LERoundTrip | localnet-ts/src/main.ts:58-65 | reading the little-endian bytes of a number that fits the width gives the number back |
| Bytes.LeftAlignPad | localnet-ts/src/main.ts:71-72 | byte i of the padded blob is byte i of the source when the source has one, and 0 otherwise; the blob has exactly the width |
| Bytes.OverwriteZerosIsPad | localnet-ts/src/main.ts:282-285 | copying the fitting prefix of the bytes over a zeroed buffer gives the left-aligned, zero-padded blob |
| Bytes.PaddedBEHoldsValue | localnet-ts/src/main.ts:282-285 | a number that fits the width keeps its minimal bytes whole at the front of the blob, they read back as the number, and every later byte is zero |
| Layout.EncodeField | localnet-ts/src/main.ts:57-67 | a field that encodes has its width; a field fails exactly when a `u8` is 256 or more, a `nu64` is 2^64 or more, a blob has the wrong length, or the value is of the wrong kind |
| Layout.Encode | localnet-ts/src/main.ts:74-89 | a struct encoding that succeeds is exactly the layout's span long |
| Layout.SpanConcat | localnet-ts/src/main.ts:56-68 | the span of two layouts one after the other is the sum of their spans |
| Layout.EncodeConcat | localnet-ts/src/main.ts:56-68 | encoding two layouts in a row is the first encoding followed by the second, or the first error |
| Layout.EncodeOkIff | localnet-ts/src/main.ts:74-89 | a struct encodes exactly when every one of its fields does |
| Layout.EncodeNu64s | localnet-ts/src/main.ts:58-65 | a run of `nu64` fields is the numbers' little-endian bytes in order when all fit in 64 bits, and a range error otherwise |
| Layout.LEFieldsAt | localnet-ts/src/main.ts:58-65 | field i of the run is bytes 8i to 8i+7 |
| Layout.DecodeEncode | localnet-ts/src/main.ts:56-68 | reading an encoded struct back with its layout gives every value back |
| Layout.WriteBytes | localnet-ts/src/main.ts:74-89 | after the write the buffer holds the bytes from the offset on, and nothing else changes |
| Layout.CopyInto | localnet-ts/src/main.ts:72 | `Buffer.copy` copies min(source length, target length) bytes to the front of the target, leaves the rest alone, and returns that count |
| Layout.EncodeInto | localnet-ts/src/main.ts:74-89 | `encode` writes the struct's encoding from the offset and returns its length, or stops with the first field's error; either way the bytes outside the layout's span are unchanged |
| TokenSwap.SwapBaseKeysShape | localnet-ts/src/main.ts:297-308 | the ten fixed entries name the nine given accounts and then the token program, in order; nobody signs; exactly entries 3 to 8 are writable |
| TokenSwap.HostFeeOnlyAppends | localnet-ts/src/main.ts:297-311 | a host-fee account appends exactly one writable, non-signer entry after the ten; it changes no other entry, the payload or the program id |
| TokenSwap.SwapLayoutEncodes | localnet-ts/src/main.ts:276-295 | the Swap layout's span is 17, and it encodes every pair of amounts into opcode 1 followed by the two amount blobs |
| TokenSwap.SwapPayloadShape | localnet-ts/src/main.ts:276-295 | the Swap payload is 17 bytes for every amount: byte 0 is 1, bytes 1-8 the amountIn blob, bytes 9-16 the minimumAmountOut blob; it reads back as those values |
| TokenSwap.AmountBlobHoldsAmount | localnet-ts/src/main.ts:282-285 | below 2^64 an amount's blob starts with its big-endian bytes, which read back as the amount, and is zero after them; an amount below 256 is its own byte followed by seven zeros |
| TokenSwap.EncodeSwapData | localnet-ts/src/main.ts:276-295 | the two zeroed `Uint8Array(8)`s, the copies and the struct encode yield exactly the Swap payload, 17 bytes |
| TokenSwap.BuildSwapInstruction | localnet-ts/src/main.ts:262-317 | the builder returns the Swap instruction: the ten fixed entries, the host-fee entry when there is one, the given program id, and the Swap payload |
| TokenSwap.AmountBlobMisread | localnet-ts/src/main.ts:278-285 | a payload for amountIn 256 read as `u8, u64, u64` little-endian gives amountIn 1 |
| TokenSwap.AmountBlobReadAsLE | localnet-ts/src/main.ts:282-285 | below 256 an amount's blob is its little-endian encoding and reads back as the amount |
| TokenSwap.SwapPayloadIntendedRoundTrip | localnet-ts/src/main.ts:276-280 | the little-endian payload is the `u8, u64, u64` struct encoding of the amounts and reads back as them; below 256 it equals the payload sent today |
| TokenSwap.SwapInstructionIntendedAgrees | localnet-ts/src/main.ts:262-317 | below 256 the built instruction is the intended one; at amountIn 256 they differ |
| Localnet.InitSwapKeysShape | localnet-ts/src/main.ts:46-55 | the eight entries are the swap account, the authority, reserves A and B, the pool mint, the fee account, the destination and the token program, in order; only the swap account signs; only entries 0, 4 and 6 are writable |
| Localnet.InitLayoutSpan | localnet-ts/src/main.ts:56-68 | the InitializePool layout spans 98 bytes |
| Localnet.TailEncodes | localnet-ts/src/main.ts:66-67 | the curve type and the 32-byte blob encode to the type's byte and the blob, or a range error when the type is 256 or more |
| Localnet.InitLayoutEncodes | localnet-ts/src/main.ts:56-89 | for every fee schedule and curve, the struct encode gives the InitializePool payload, or a range error exactly when a fee or the curve type is too large |
| Localnet.InitPayloadLayout | localnet-ts/src/main.ts:56-90 | the payload is 98 bytes: opcode 0, then the fee fields in bytes 1-64, the curve type in byte 65, and the curve blob in bytes 66-97 |
| Localnet.InitPayloadFees | localnet-ts/src/main.ts:58-65 | each fee occupies its own eight bytes, little-endian, in the declared order, and reads back as the fee |
| Localnet.InitPayloadDecodes | localnet-ts/src/main.ts:56-89 | reading the payload back with the layout gives every value back |
| Localnet.CurveParamsPlacement | localnet-ts/src/main.ts:71-72 | curve parameters below 256^32 start byte 66 with their minimal big-endian bytes, which read back as the parameters; the rest of the blob is zero |
| Localnet.PoolSpaceHoldsInitFields | localnet-ts/src/main.ts:112 | `POOL_SPACE` is 324: three bytes, seven keys and the InitializePool payload after its opcode |
| Localnet.DefaultFeesFit | localnet-ts/src/main.ts:77-84 | the fees are 0/10000, 5/10000, 0/0 and 20/100, and each fits 64 bits |
| Localnet.FeeSlices | localnet-ts/src/main.ts:77-84 | when the fee fields hold that schedule, each field's bytes are written out (10000 is `10 27`) |
| Localnet.DefaultFeeBytes | localnet-ts/src/main.ts:77-84 | the payload's bytes 1-64 under that schedule, field by field |
| Localnet.EncodeInitData | localnet-ts/src/main.ts:69-90 | the 1024-byte buffer, the 32-byte curve buffer, the encode and the slice yield the InitializePool payload; the encoding fails exactly when a fee or the curve type does not fit |
| Localnet.CreateInitSwapInstruction | localnet-ts/src/main.ts:35-97 | the builder returns the eight entries, the localnet program id and the payload; it fails exactly when the curve type is 256 or more |
| Localnet.CreateSwapInstruction | localnet-ts/src/main.ts:262-317 | the localnet Swap builder is the shared construction with the program id `SwaPpA9…AC8` |
| Localnet.InitScenario | localnet-ts/src/main.ts:247-259 | the pool created with curve type 0 and parameters 1,000,000 gets a 98-byte payload: opcode 0, curve type byte 0, and `0F 42 40` followed by 29 zero bytes |
| Localnet.ScenarioCurveParams | localnet-ts/src/main.ts:258 | the bn.js bytes of 1,000,000 are `0F 42 40`, and its blob adds 29 zeros |
| Localnet.SwapScenario | localnet-ts/src/main.ts:355-368 | the submitted swap (50 in, 45 minimum out, a host-fee account) has eleven entries ending with the writable host-fee account; its payload is `01 32 00×7 2D 00×7` |
| Localnet.SwapScenarioWithoutHostFee | localnet-ts/src/main.ts:309-311 | the same swap without a host-fee account has ten entries and the same payload; both forms equal the intended little-endian instruction |
| Devnet.CreateSwapInstruction | devnet-ts/src/main.ts:160-215 | the devnet Swap builder is the shared construction, against the library's program id |
| Devnet.SameSwapAsLocalnet | devnet-ts/src/main.ts:160-215 | for the same arguments the devnet instruction has the localnet one's entries and payload; only the program id can differ |
| Devnet.SwapScenario | devnet-ts/src/main.ts:253-266 | the devnet swap (50, 45, a host-fee account) has eleven entries and the same 17 bytes as on localnet, and is the intended little-endian instruction |

## Left out

- The async orchestration is not modelled. This is `createMints`, `createPool`,
  `createTokenSwap`, `swap` and `main`: the calls to the Ledger and to the
  token library, airdrops, confirmations and logging are I/O. Only the
  instructions they submit are modelled.
- `PublicKey.findProgramAddress` is not modelled. It is a one-way
  derivation in the Ledger client library.
- Key pairs and the addresses they produce are not modelled. A public key
  is modelled by its base-58 text, with no checking.
- The rent-exemption query for `POOL_SPACE` is not modelled; it is I/O.
  Only the constant is modelled.
- `FEE_OWNER` is not modelled. Neither builder uses it.
- The devnet client's pool creation through `TokenSwap.createTokenSwap`
  is not modelled. It is code in the Token Swap library, which is not part
  of this model.
- The devnet program id is a parameter. It is the `TOKEN_SWAP_PROGRAM_ID`
  that the library exports, and its value is not part of this model.
- The amount, curve-type and curve-parameter arguments are unbounded
  naturals. The model therefore leaves out what bn.js and buffer-layout do
  with negative, fractional or non-finite JavaScript numbers. It also
  leaves out bn.js's assertion failure on numbers of 2^53 or more.
- The payload functions and `Localnet.EncodeInitData` take the fee
  schedule as a parameter. The client's own builder
  (`Localnet.CreateInitSwapInstruction`) always passes the hard-coded
  schedule.

## Findings

| source | as written | input that shows it | evidently intended | confidence | as-written member | corrected member |
|---|---|---|---|---|---|---|
| localnet-ts/src/main.ts:282-285 (same in devnet-ts/src/main.ts:180-183) | each amount is copied as bn.js's big-endian bytes into the front of an 8-byte blob | amountIn = 256 goes out as `01 00 00 00 00 00 00 00`, which the program's little-endian `u64` reads as 1 | each amount goes out as its 8 little-endian bytes, as a `nu64` field gives them | not executed | TokenSwap.AmountBlobMisread | TokenSwap.SwapPayloadIntendedRoundTrip |

The builders keep the as-written encoding, to stay faithful to the code.
The corrected payload `TokenSwap.SwapPayloadIntended` and the instruction
built from it, `TokenSwap.SwapInstructionIntended`, come with their round
trip and with `TokenSwap.SwapInstructionIntendedAgrees`.
`Localnet.SwapScenarioWithoutHostFee` and `Devnet.SwapScenario` prove
that the swap each client actually submits is the intended instruction.
On devnet this holds for any program id.
