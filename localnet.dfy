/** The localnet client: the InitializePool instruction it builds with a
    hard-coded fee schedule, its Swap builder (the shared one, run against
    the program id this client hard-codes), the size it gives the swap
    state account, and the two calls the client makes. */
module Localnet {
  import opened Bytes
  import opened Layout
  import opened TokenSwap

  const TOKEN_SWAP_PROGRAM_ID := PublicKey("SwaPpA9LAaLfeLi3a68M4DjnLqgtticKg6CnyNwgAC8")

  /** Bytes of the swap state account: three one-byte fields, seven keys,
      the eight 64-bit fees, the curve type and the curve parameters. */
  const POOL_SPACE: nat := 3 * 1 + 32 * 7 + 8 * 8 + 1 + 32

  const INIT_OPCODE: byte := 0

  // ---------------------------------------------------------------------
  // Fee schedule.
  // ---------------------------------------------------------------------

  datatype Fees = Fees(
    tradeFeeNumerator: nat,
    tradeFeeDenominator: nat,
    ownerTradeFeeNumerator: nat,
    ownerTradeFeeDenominator: nat,
    ownerWithdrawFeeNumerator: nat,
    ownerWithdrawFeeDenominator: nat,
    hostFeeNumerator: nat,
    hostFeeDenominator: nat)

  /** The fees every pool this client creates gets. */
  const FEES := Fees(0, 10000, 5, 10000, 0, 0, 20, 100)

  /** The fee fields in the order the layout declares them. */
  function FeeFields(f: Fees): (r: seq<nat>)
    ensures |r| == 8
  {
    [f.tradeFeeNumerator, f.tradeFeeDenominator,
     f.ownerTradeFeeNumerator, f.ownerTradeFeeDenominator,
     f.ownerWithdrawFeeNumerator, f.ownerWithdrawFeeDenominator,
     f.hostFeeNumerator, f.hostFeeDenominator]
  }

  // ---------------------------------------------------------------------
  // InitializePool accounts.
  // ---------------------------------------------------------------------

  datatype InitAccounts = InitAccounts(
    swapAccount: PublicKey,
    swapAuthority: PublicKey,
    accountA: PublicKey,
    accountB: PublicKey,
    mintPool: PublicKey,
    accountFee: PublicKey,
    accountDestination: PublicKey)

  /** The eight entries of the InitializePool instruction. */
  function InitSwapKeys(a: InitAccounts): (keys: seq<AccountMeta>)
    ensures |keys| == 8
  {
    [
      AccountMeta(a.swapAccount, true, true),
      AccountMeta(a.swapAuthority, false, false),
      AccountMeta(a.accountA, false, false),
      AccountMeta(a.accountB, false, false),
      AccountMeta(a.mintPool, false, true),
      AccountMeta(a.accountFee, false, false),
      AccountMeta(a.accountDestination, false, true),
      AccountMeta(TOKEN_PROGRAM_ID, false, false)
    ]
  }

  /** In order: swap account, authority, reserves A and B, pool mint, fee
      account, destination, token program. Only the swap account signs;
      exactly the swap account, the pool mint and the destination are
      writable. */
  lemma InitSwapKeysShape(a: InitAccounts)
    ensures Pubkeys(InitSwapKeys(a)) == [a.swapAccount, a.swapAuthority, a.accountA, a.accountB,
                                         a.mintPool, a.accountFee, a.accountDestination, TOKEN_PROGRAM_ID]
    ensures SignerIndices(InitSwapKeys(a)) == {0}
    ensures WritableIndices(InitSwapKeys(a)) == {0, 4, 6}
  {
    var keys := InitSwapKeys(a);
    assert forall i: nat | i < 8 :: keys[i].isSigner <==> i == 0;
    assert forall i: nat | i < 8 :: keys[i].isWritable <==> i == 0 || i == 4 || i == 6;
  }

  // ---------------------------------------------------------------------
  // InitializePool payload.
  // ---------------------------------------------------------------------

  /** `u8 instruction`, eight `nu64` fees, `u8 curveType`,
      `blob(32) curveParameters`. */
  const INIT_LAYOUT: seq<FieldKind> := [U8] + Nu64s(8) + [U8, Blob(32)]

  /** Every fee fits its `nu64` field. */
  predicate FeesFit(f: Fees)
  {
    forall i :: 0 <= i < 8 ==> FeeFields(f)[i] < U64_LIMIT
  }

  /** The curve parameters as the client writes them: bn.js's minimal
      big-endian bytes copied to the front of 32 zero bytes. */
  function CurveParamsBlob(curveParameters: nat): (r: seq<byte>)
    ensures |r| == 32
  {
    LeftAlignPad(BEMinimal(curveParameters), 32)
  }

  /** The values the client hands the layout, in field order. */
  function InitValues(f: Fees, curveType: nat, curveParameters: nat): seq<Value>
  {
    [Num(INIT_OPCODE as nat)] + Nums(FeeFields(f)) + [Num(curveType), Raw(CurveParamsBlob(curveParameters))]
  }

  /** The InitializePool payload byte by byte. */
  function InitPayload(f: Fees, curveType: byte, curveParameters: nat): seq<byte>
  {
    [INIT_OPCODE] + LEFields(FeeFields(f)) + [curveType] + CurveParamsBlob(curveParameters)
  }

  /** The payload, or the range error of a fee or a curve type too large
      for its field. */
  function InitData(f: Fees, curveType: nat, curveParameters: nat): Result<seq<byte>>
  {
    if FeesFit(f) && curveType < 256 then Ok(InitPayload(f, curveType, curveParameters)) else Err(OutOfRange)
  }

  lemma InitLayoutSpan()
    ensures Span(INIT_LAYOUT) == 98
  {
    var head, feeLayout, tailLayout := [U8], Nu64s(8), [U8, Blob(32)];
    SpanNu64s(8);
    SpanConcat(head, feeLayout);
    SpanConcat(head + feeLayout, tailLayout);
    assert Span(head) == 1 by {
      assert head[1..] == [];
    }
    assert Span(tailLayout) == 33 by {
      assert tailLayout[1..][1..] == [];
    }
    assert INIT_LAYOUT == (head + feeLayout) + tailLayout;
  }

  /** The struct layout encodes the init values into exactly the payload
      above, and refuses a fee of 2^64 or more or a curve type of 256 or
      more with a range error. */
  lemma InitLayoutEncodes(f: Fees, curveType: nat, curveParameters: nat)
    ensures Encode(INIT_LAYOUT, InitValues(f, curveType, curveParameters)) == InitData(f, curveType, curveParameters)
  {
    var fees := FeeFields(f);
    var blob := CurveParamsBlob(curveParameters);
    var head, feeLayout, tailLayout := [U8], Nu64s(8), [U8, Blob(32)];
    var tail := [Num(curveType), Raw(blob)];
    TailEncodes(curveType, blob);
    EncodeNu64s(fees);
    assert Encode(head, [Num(0)]) == Ok([0]) by {
      assert head[1..] == [] && [Num(0)][1..] == [];
      assert [0] + [] == [0];
    }
    EncodeConcat(head, [Num(0)], feeLayout, Nums(fees));
    var front := Encode(head + feeLayout, [Num(0)] + Nums(fees));
    EncodeConcat(head + feeLayout, [Num(0)] + Nums(fees), tailLayout, tail);
    assert INIT_LAYOUT == (head + feeLayout) + tailLayout;
    assert InitValues(f, curveType, curveParameters) == ([Num(0)] + Nums(fees)) + tail;
    assert Encode(INIT_LAYOUT, InitValues(f, curveType, curveParameters)) == Then(front, Encode(tailLayout, tail));
    if FeesFit(f) {
      assert front == Ok([0] + LEFields(fees));
      if curveType < 256 {
        assert ([0] + LEFields(fees)) + ([curveType] + blob) == InitPayload(f, curveType, curveParameters);
      }
    } else {
      assert front == Err(OutOfRange);
    }
  }

  lemma TailEncodes(curveType: nat, blob: seq<byte>)
    requires |blob| == 32
    ensures Encode([U8, Blob(32)], [Num(curveType), Raw(blob)])
            == if curveType < 256 then Ok([curveType] + blob) else Err(OutOfRange)
  {
    var l, v := [U8, Blob(32)], [Num(curveType), Raw(blob)];
    assert l[1..][1..] == [] && v[1..][1..] == [];
    assert Encode(l[1..], v[1..]) == Ok(blob + []);
    assert blob + [] == blob;
  }

  /** The payload is 98 bytes: opcode 0 in byte 0, the eight fee fields
      in bytes 1 to 64, the curve type in byte 65 and the curve parameters'
      blob in bytes 66 to 97. */
  lemma InitPayloadLayout(f: Fees, curveType: byte, curveParameters: nat)
    ensures var p := InitPayload(f, curveType, curveParameters);
            && |p| == 98
            && p[0] == INIT_OPCODE
            && p[1..65] == LEFields(FeeFields(f))
            && p[65] == curveType
            && p[66..98] == CurveParamsBlob(curveParameters)
  {
  }

  /** Bytes 1 to 64 hold the eight fees, each as eight little-endian
      bytes that read back as the fee, in the order trade, owner trade,
      owner withdraw and host fee, numerator before denominator. */
  lemma InitPayloadFees(f: Fees, curveType: byte, curveParameters: nat)
    requires FeesFit(f)
    ensures var p := InitPayload(f, curveType, curveParameters);
            forall i :: 0 <= i < 8 ==>
              && p[1 + 8 * i..9 + 8 * i] == LE(FeeFields(f)[i], 8)
              && LEValue(p[1 + 8 * i..9 + 8 * i]) == FeeFields(f)[i]
  {
    var p := InitPayload(f, curveType, curveParameters);
    var fees := FeeFields(f);
    InitPayloadLayout(f, curveType, curveParameters);
    Pow256Eight();
    forall i | 0 <= i < 8
      ensures p[1 + 8 * i..9 + 8 * i] == LE(fees[i], 8)
      ensures LEValue(p[1 + 8 * i..9 + 8 * i]) == fees[i]
    {
      LEFieldsAt(fees, i);
      assert p[1 + 8 * i..9 + 8 * i] == p[1..65][8 * i..8 * i + 8];
      LERoundTrip(fees[i], 8);
    }
  }

  /** Reading the payload back with the layout gives every value again. */
  lemma InitPayloadDecodes(f: Fees, curveType: byte, curveParameters: nat)
    requires FeesFit(f)
    ensures Span(INIT_LAYOUT) == |InitPayload(f, curveType, curveParameters)|
    ensures Decode(INIT_LAYOUT, InitPayload(f, curveType, curveParameters)) == InitValues(f, curveType, curveParameters)
  {
    InitLayoutSpan();
    InitLayoutEncodes(f, curveType, curveParameters);
    DecodeEncode(INIT_LAYOUT, InitValues(f, curveType, curveParameters));
  }

  /** When the curve parameters fit in 32 bytes, bytes 66 onward start
      with their minimal big-endian bytes, and every byte after those is
      zero. */
  lemma CurveParamsPlacement(f: Fees, curveType: byte, curveParameters: nat)
    requires curveParameters < Pow256(32)
    ensures var p := InitPayload(f, curveType, curveParameters);
            var k := |BEMinimal(curveParameters)|;
            && k <= 32
            && p[66..66 + k] == BEMinimal(curveParameters)
            && BEValue(p[66..66 + k]) == curveParameters
            && forall i :: 66 + k <= i < 98 ==> p[i] == 0
  {
    InitPayloadLayout(f, curveType, curveParameters);
    PaddedBEHoldsValue(curveParameters, 32);
  }

  /** The state account's size is 324: three bytes, seven 32-byte keys and
      the whole InitializePool payload after its opcode. */
  lemma PoolSpaceHoldsInitFields(f: Fees, curveType: byte, curveParameters: nat)
    ensures POOL_SPACE == 324
    ensures POOL_SPACE == 3 * 1 + 32 * 7 + |InitPayload(f, curveType, curveParameters)| - 1
  {
  }

  // ---------------------------------------------------------------------
  // The InitializePool instruction.
  // ---------------------------------------------------------------------

  function InitSwapInstruction(a: InitAccounts, curveType: nat, curveParameters: nat): Result<Instruction>
  {
    match InitData(FEES, curveType, curveParameters)
    case Ok(data) => Ok(Instruction(InitSwapKeys(a), TOKEN_SWAP_PROGRAM_ID, data))
    case Err(e) => Err(e)
  }

  /** The client's fee schedule is 0/10000, 5/10000, 0/0 and 20/100, and
      every fee fits its field. */
  lemma DefaultFeesFit()
    ensures FeeFields(FEES) == [0, 10000, 5, 10000, 0, 0, 20, 100]
    ensures FeesFit(FEES)
  {
  }

  /** Writes the InitializePool payload the way the client does: the curve
      parameters' bn.js bytes copied into a zeroed 32-byte buffer, the
      struct encoded with the given fee schedule into a zeroed 1024-byte
      buffer, and that buffer cut to the encoded length. */
  method EncodeInitData(f: Fees, curveType: nat, curveParameters: nat) returns (r: Result<seq<byte>>)
    ensures r == InitData(f, curveType, curveParameters)
    ensures r.Ok? <==> FeesFit(f) && curveType < 256
  {
    var data := new byte[1024](i => 0);
    var curveParamsBuffer := new byte[32](i => 0);
    assert curveParamsBuffer[..] == Zeros(32);
    var copied := CopyInto(BEMinimal(curveParameters), curveParamsBuffer);
    OverwriteZerosIsPad(BEMinimal(curveParameters), 32, copied);
    var values := [Num(INIT_OPCODE as nat)] + Nums(FeeFields(f))
                  + [Num(curveType), Raw(curveParamsBuffer[..])];
    assert values == InitValues(f, curveType, curveParameters);
    InitLayoutSpan();
    InitLayoutEncodes(f, curveType, curveParameters);
    assert data[..] == Zeros(1024);
    var encoded := EncodeInto(INIT_LAYOUT, values, data, 0);
    match encoded
    case Err(e) =>
      r := Err(e);
    case Ok(encodeLength) =>
      ghost var payload := InitPayload(f, curveType, curveParameters);
      assert data[..] == Overwrite(Zeros(1024), 0, payload);
      assert data[..encodeLength] == payload;
      r := Ok(data[..encodeLength]);
  }

  /** `createInitSwapInstruction`. */
  method CreateInitSwapInstruction(a: InitAccounts, curveType: nat, curveParameters: nat)
    returns (r: Result<Instruction>)
    ensures r == InitSwapInstruction(a, curveType, curveParameters)
    ensures r.Ok? <==> curveType < 256
  {
    DefaultFeesFit();
    var keys := InitSwapKeys(a);
    var data := EncodeInitData(FEES, curveType, curveParameters);
    match data
    case Err(e) =>
      r := Err(e);
    case Ok(bytes) =>
      r := Ok(Instruction(keys, TOKEN_SWAP_PROGRAM_ID, bytes));
  }

  /** `createSwapInstruction`, against this client's program id. */
  method CreateSwapInstruction(a: SwapAccounts, hostFeeAccount: Option<PublicKey>,
                               amountIn: nat, minimumAmountOut: nat)
    returns (ix: Instruction)
    ensures ix == SwapInstruction(TOKEN_SWAP_PROGRAM_ID, a, hostFeeAccount, amountIn, minimumAmountOut)
  {
    ix := BuildSwapInstruction(TOKEN_SWAP_PROGRAM_ID, a, hostFeeAccount, amountIn, minimumAmountOut);
  }

  // ---------------------------------------------------------------------
  // The calls the client makes.
  // ---------------------------------------------------------------------

  /** The client's fee schedule on the wire: each fee is its
      little-endian bytes; 10000 is 10 27, and the other fees fit one
      byte. */
  lemma DefaultFeeBytes(curveType: byte, curveParameters: nat)
    ensures var p := InitPayload(FEES, curveType, curveParameters);
            && p[1..9] == Zeros(8)
            && p[9..17] == [0x10, 0x27] + Zeros(6)
            && p[17..25] == [5] + Zeros(7)
            && p[25..33] == [0x10, 0x27] + Zeros(6)
            && p[33..41] == Zeros(8)
            && p[41..49] == Zeros(8)
            && p[49..57] == [20] + Zeros(7)
            && p[57..65] == [100] + Zeros(7)
  {
    DefaultFeesFit();
    InitPayloadFees(FEES, curveType, curveParameters);
    FeeSlices(InitPayload(FEES, curveType, curveParameters), FeeFields(FEES));
  }

  lemma FeeSlices(p: seq<byte>, fees: seq<nat>)
    requires |p| == 98 && fees == [0, 10000, 5, 10000, 0, 0, 20, 100]
    requires forall i :: 0 <= i < 8 ==> p[1 + 8 * i..9 + 8 * i] == LE(fees[i], 8)
    ensures && p[1..9] == Zeros(8)
            && p[9..17] == [0x10, 0x27] + Zeros(6)
            && p[17..25] == [5] + Zeros(7)
            && p[25..33] == [0x10, 0x27] + Zeros(6)
            && p[33..41] == Zeros(8)
            && p[41..49] == Zeros(8)
            && p[49..57] == [20] + Zeros(7)
            && p[57..65] == [100] + Zeros(7)
  {
    assert p[1..9] == LE(0, 8) && p[33..41] == LE(0, 8) && p[41..49] == LE(0, 8) by {
      assert p[1 + 8 * 0..9 + 8 * 0] == LE(fees[0], 8);
      assert p[1 + 8 * 4..9 + 8 * 4] == LE(fees[4], 8);
      assert p[1 + 8 * 5..9 + 8 * 5] == LE(fees[5], 8);
    }
    LEZero(8);
    assert p[9..17] == LE(10000, 8) && p[25..33] == LE(10000, 8) by {
      assert p[1 + 8 * 1..9 + 8 * 1] == LE(fees[1], 8);
      assert p[1 + 8 * 3..9 + 8 * 3] == LE(fees[3], 8);
    }
    assert LE(10000, 8) == [0x10, 0x27] + Zeros(6) by {
      LESmall(39, 7);
    }
    assert p[17..25] == LE(5, 8) && p[49..57] == LE(20, 8) && p[57..65] == LE(100, 8) by {
      assert p[1 + 8 * 2..9 + 8 * 2] == LE(fees[2], 8);
      assert p[1 + 8 * 6..9 + 8 * 6] == LE(fees[6], 8);
      assert p[1 + 8 * 7..9 + 8 * 7] == LE(fees[7], 8);
    }
    LESmall(5, 8);
    LESmall(20, 8);
    LESmall(100, 8);
  }

  /** The pool is created with the client's fee schedule, curve type 0
      and curve parameters 1,000,000, whose bn.js bytes 0F 42 40 lead the
      32-byte blob. */
  lemma InitScenario(a: InitAccounts)
    ensures InitSwapInstruction(a, 0, 1_000_000).Ok?
    ensures var ix := InitSwapInstruction(a, 0, 1_000_000).value;
            && ix.programId == TOKEN_SWAP_PROGRAM_ID
            && ix.keys == InitSwapKeys(a)
            && ix.data == InitPayload(FEES, 0, 1_000_000)
            && |ix.data| == 98
            && ix.data[0] == 0
            && ix.data[65] == 0
            && ix.data[66..98] == [0x0F, 0x42, 0x40] + Zeros(29)
  {
    DefaultFeesFit();
    InitPayloadLayout(FEES, 0, 1_000_000);
    ScenarioCurveParams();
  }

  /** bn.js writes 1,000,000 as the three bytes 0F 42 40. */
  lemma ScenarioCurveParams()
    ensures BEMinimal(1_000_000) == [0x0F, 0x42, 0x40]
    ensures CurveParamsBlob(1_000_000) == [0x0F, 0x42, 0x40] + Zeros(29)
  {
    assert BEMinimal(3906) == [0x0F, 0x42];
  }

  /** The swap the client submits: 50 in, at least 45 out, with a host-fee
      account, gives eleven entries and the payload 01, 32 and seven zero
      bytes, 2D and seven zero bytes. */
  lemma SwapScenario(a: SwapAccounts, host: PublicKey)
    ensures var ix := SwapInstruction(TOKEN_SWAP_PROGRAM_ID, a, Some(host), 50, 45);
            && ix.programId == TOKEN_SWAP_PROGRAM_ID
            && |ix.keys| == 11
            && ix.keys[10] == AccountMeta(host, false, true)
            && ix.data == [1, 0x32, 0, 0, 0, 0, 0, 0, 0, 0x2D, 0, 0, 0, 0, 0, 0, 0]
  {
    Pow256Eight();
    AmountBlobHoldsAmount(50);
    AmountBlobHoldsAmount(45);
  }

  /** Without the host-fee account the same swap has the ten fixed entries
      and the same seventeen bytes; with or without it, the amounts are
      small enough that the payload is the intended little-endian one. */
  lemma SwapScenarioWithoutHostFee(a: SwapAccounts, host: PublicKey)
    ensures var ix := SwapInstruction(TOKEN_SWAP_PROGRAM_ID, a, None, 50, 45);
            && |ix.keys| == 10
            && ix.data == [1, 0x32, 0, 0, 0, 0, 0, 0, 0, 0x2D, 0, 0, 0, 0, 0, 0, 0]
            && ix == SwapInstructionIntended(TOKEN_SWAP_PROGRAM_ID, a, None, 50, 45)
    ensures SwapInstruction(TOKEN_SWAP_PROGRAM_ID, a, Some(host), 50, 45)
            == SwapInstructionIntended(TOKEN_SWAP_PROGRAM_ID, a, Some(host), 50, 45)
  {
    SwapScenario(a, host);
    HostFeeOnlyAppends(TOKEN_SWAP_PROGRAM_ID, a, host, 50, 45);
    SwapInstructionIntendedAgrees(TOKEN_SWAP_PROGRAM_ID, a, None, 50, 45);
    SwapInstructionIntendedAgrees(TOKEN_SWAP_PROGRAM_ID, a, Some(host), 50, 45);
  }
}
