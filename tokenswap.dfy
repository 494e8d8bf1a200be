/** What a Token Swap instruction is made of, and the Swap instruction that
    both the localnet and the devnet clients build with the same code:
    opcode 1, the two amount blobs, and ten account references with an
    optional host-fee account after them. */
module TokenSwap {
  import opened Bytes
  import opened Layout

  datatype Option<T> = None | Some(value: T)

  /** A ledger address, written as its base-58 text. */
  datatype PublicKey = PublicKey(base58: string)

  /** One entry of an instruction's account list. */
  datatype AccountMeta = AccountMeta(pubkey: PublicKey, isSigner: bool, isWritable: bool)

  /** A `TransactionInstruction`: the account list, the program that runs
      it, and its payload. */
  datatype Instruction = Instruction(keys: seq<AccountMeta>, programId: PublicKey, data: seq<byte>)

  const TOKEN_PROGRAM_ID := PublicKey("TokenkegQfeZyiNwAJbNbGKPFXCWuBvf9Ss623VQ5DA")

  /** The addresses of an account list, in order. */
  function Pubkeys(keys: seq<AccountMeta>): (r: seq<PublicKey>)
    ensures |r| == |keys|
    ensures forall i :: 0 <= i < |keys| ==> r[i] == keys[i].pubkey
  {
    if keys == [] then [] else [keys[0].pubkey] + Pubkeys(keys[1..])
  }

  /** The positions of the entries that must sign. */
  function SignerIndices(keys: seq<AccountMeta>): set<nat>
  {
    set i: nat | i < |keys| && keys[i].isSigner
  }

  /** The positions of the entries the program may write. */
  function WritableIndices(keys: seq<AccountMeta>): set<nat>
  {
    set i: nat | i < |keys| && keys[i].isWritable
  }

  // ---------------------------------------------------------------------
  // Swap accounts.
  // ---------------------------------------------------------------------

  /** The accounts a swap names besides the token program and the
      optional host-fee account. */
  datatype SwapAccounts = SwapAccounts(
    swapAccount: PublicKey,
    authority: PublicKey,
    userTransferAuthority: PublicKey,
    userSource: PublicKey,
    poolSource: PublicKey,
    poolDestination: PublicKey,
    userDestination: PublicKey,
    poolMint: PublicKey,
    feeAccount: PublicKey)

  /** The ten fixed entries of a Swap instruction: nobody signs, and only
      the user's two accounts, the two pool reserves, the pool mint and the
      fee account are writable. */
  function SwapBaseKeys(a: SwapAccounts): (keys: seq<AccountMeta>)
    ensures |keys| == 10
  {
    [
      AccountMeta(a.swapAccount, false, false),
      AccountMeta(a.authority, false, false),
      AccountMeta(a.userTransferAuthority, false, false),
      AccountMeta(a.userSource, false, true),
      AccountMeta(a.poolSource, false, true),
      AccountMeta(a.poolDestination, false, true),
      AccountMeta(a.userDestination, false, true),
      AccountMeta(a.poolMint, false, true),
      AccountMeta(a.feeAccount, false, true),
      AccountMeta(TOKEN_PROGRAM_ID, false, false)
    ]
  }

  /** The ten entries name the swap account, the pool authority, the user
      transfer authority, the user's source, the two pool reserves, the
      user's destination, the pool mint, the fee account and the token
      program, in that order; nobody signs, and exactly entries 3 to 8 are
      writable. */
  lemma SwapBaseKeysShape(a: SwapAccounts)
    ensures Pubkeys(SwapBaseKeys(a)) == [a.swapAccount, a.authority, a.userTransferAuthority, a.userSource,
                                         a.poolSource, a.poolDestination, a.userDestination, a.poolMint,
                                         a.feeAccount, TOKEN_PROGRAM_ID]
    ensures SignerIndices(SwapBaseKeys(a)) == {}
    ensures WritableIndices(SwapBaseKeys(a)) == {3, 4, 5, 6, 7, 8}
  {
    var keys := SwapBaseKeys(a);
    assert forall i: nat | i < 10 :: !keys[i].isSigner;
    assert forall i: nat | i < 10 :: keys[i].isWritable <==> 3 <= i <= 8;
  }

  /** The entry a host-fee account adds: writable, not a signer. */
  function HostFeeMeta(host: PublicKey): AccountMeta
  {
    AccountMeta(host, false, true)
  }

  /** The account list of a Swap instruction. */
  function SwapKeys(a: SwapAccounts, hostFeeAccount: Option<PublicKey>): seq<AccountMeta>
  {
    match hostFeeAccount
    case None => SwapBaseKeys(a)
    case Some(h) => SwapBaseKeys(a) + [HostFeeMeta(h)]
  }

  // ---------------------------------------------------------------------
  // Swap payload.
  // ---------------------------------------------------------------------

  const SWAP_OPCODE: byte := 1

  /** `u8 instruction`, `blob(8) amountIn`, `blob(8) minimumAmountOut`. */
  const SWAP_LAYOUT: seq<FieldKind> := [U8, Blob(8), Blob(8)]

  /** An amount as the client writes it: bn.js's minimal big-endian bytes
      copied to the front of eight zero bytes. */
  function AmountBlob(amount: nat): (r: seq<byte>)
    ensures |r| == 8
  {
    LeftAlignPad(BEMinimal(amount), 8)
  }

  function SwapValues(amountIn: nat, minimumAmountOut: nat): seq<Value>
  {
    [Num(SWAP_OPCODE as nat), Raw(AmountBlob(amountIn)), Raw(AmountBlob(minimumAmountOut))]
  }

  /** The Swap payload byte by byte: opcode 1, then the two amount blobs. */
  function SwapPayload(amountIn: nat, minimumAmountOut: nat): seq<byte>
  {
    [SWAP_OPCODE] + AmountBlob(amountIn) + AmountBlob(minimumAmountOut)
  }

  /** The struct layout encodes the swap values into exactly the payload
      above, whatever the amounts; the span is 17. */
  lemma SwapLayoutEncodes(amountIn: nat, minimumAmountOut: nat)
    ensures Span(SWAP_LAYOUT) == 17
    ensures Encode(SWAP_LAYOUT, SwapValues(amountIn, minimumAmountOut)) == Ok(SwapPayload(amountIn, minimumAmountOut))
  {
    var v := SwapValues(amountIn, minimumAmountOut);
    assert SWAP_LAYOUT[1..][1..][1..] == [] && v[1..][1..][1..] == [];
    assert EncodeField(U8, Num(1)) == Ok([1]);
    assert EncodeField(Blob(8), Raw(AmountBlob(amountIn))) == Ok(AmountBlob(amountIn));
    assert EncodeField(Blob(8), Raw(AmountBlob(minimumAmountOut))) == Ok(AmountBlob(minimumAmountOut));
    assert Encode(SWAP_LAYOUT[1..][1..], v[1..][1..]) == Ok(AmountBlob(minimumAmountOut) + []);
    assert Encode(SWAP_LAYOUT[1..], v[1..]) == Ok(AmountBlob(amountIn) + (AmountBlob(minimumAmountOut) + []));
    assert Span(SWAP_LAYOUT[1..][1..]) == 8;
    assert [1] + (AmountBlob(amountIn) + (AmountBlob(minimumAmountOut) + [])) == SwapPayload(amountIn, minimumAmountOut);
  }

  /** The payload is 17 bytes for every amount: byte 0 is the opcode,
      bytes 1..8 the amountIn blob and bytes 9..16 the minimumAmountOut
      blob; reading the layout back returns both blobs. */
  lemma SwapPayloadShape(amountIn: nat, minimumAmountOut: nat)
    ensures |SwapPayload(amountIn, minimumAmountOut)| == 17
    ensures SwapPayload(amountIn, minimumAmountOut)[0] == 1
    ensures SwapPayload(amountIn, minimumAmountOut)[1..9] == AmountBlob(amountIn)
    ensures SwapPayload(amountIn, minimumAmountOut)[9..17] == AmountBlob(minimumAmountOut)
    ensures Decode(SWAP_LAYOUT, SwapPayload(amountIn, minimumAmountOut)) == SwapValues(amountIn, minimumAmountOut)
  {
    SwapLayoutEncodes(amountIn, minimumAmountOut);
    DecodeEncode(SWAP_LAYOUT, SwapValues(amountIn, minimumAmountOut));
  }

  /** Every amount that fits in eight bytes can be read back from its blob:
      its minimal big-endian bytes stand at the front and the rest is zero.
      An amount below 256 is its own byte followed by seven zeros. */
  lemma AmountBlobHoldsAmount(amount: nat)
    requires amount < U64_LIMIT
    ensures |BEMinimal(amount)| <= 8
    ensures BEValue(AmountBlob(amount)[..|BEMinimal(amount)|]) == amount
    ensures forall i :: |BEMinimal(amount)| <= i < 8 ==> AmountBlob(amount)[i] == 0
    ensures amount < 256 ==> AmountBlob(amount) == [amount] + Zeros(7)
  {
    Pow256Eight();
    PaddedBEHoldsValue(amount, 8);
    if amount < 256 {
      assert AmountBlob(amount) == [amount] + Zeros(7);
    }
  }

  // ---------------------------------------------------------------------
  // The Swap instruction.
  // ---------------------------------------------------------------------

  /** The Swap instruction a builder returns for the given program. */
  function SwapInstruction(programId: PublicKey, a: SwapAccounts, hostFeeAccount: Option<PublicKey>,
                           amountIn: nat, minimumAmountOut: nat): Instruction
  {
    Instruction(SwapKeys(a, hostFeeAccount), programId, SwapPayload(amountIn, minimumAmountOut))
  }

  /** The host-fee account adds exactly one writable, non-signer entry at
      the end; without it the list has exactly the ten fixed entries. The
      other entries, the payload and the program do not depend on it. */
  lemma HostFeeOnlyAppends(programId: PublicKey, a: SwapAccounts, host: PublicKey,
                           amountIn: nat, minimumAmountOut: nat)
    ensures var without := SwapInstruction(programId, a, None, amountIn, minimumAmountOut);
            var with := SwapInstruction(programId, a, Some(host), amountIn, minimumAmountOut);
            && |without.keys| == 10
            && |with.keys| == 11
            && with.keys[..10] == without.keys
            && with.keys[10] == AccountMeta(host, false, true)
            && SignerIndices(with.keys) == {}
            && WritableIndices(with.keys) == WritableIndices(without.keys) + {10}
            && with.data == without.data
            && with.programId == without.programId
  {
    var base := SwapBaseKeys(a);
    var with := base + [HostFeeMeta(host)];
    assert forall i: nat | i < |with| :: with[i].isSigner == (i < 10 && base[i].isSigner);
    assert forall i: nat | i < |with| :: with[i].isWritable == (i == 10 || base[i].isWritable);
  }

  /** Writes the Swap payload the way the client does: each amount's
      bn.js bytes copied into a zeroed `Uint8Array(8)`, then the struct
      encoded into a zeroed buffer of the layout's span. */
  method EncodeSwapData(amountIn: nat, minimumAmountOut: nat) returns (data: seq<byte>)
    ensures data == SwapPayload(amountIn, minimumAmountOut)
    ensures |data| == 17
  {
    var amountInArray := new byte[8](i => 0);
    assert amountInArray[..] == Zeros(8);
    var copiedIn := CopyInto(BEMinimal(amountIn), amountInArray);
    assert amountInArray[..] == AmountBlob(amountIn) by {
      OverwriteZerosIsPad(BEMinimal(amountIn), 8, copiedIn);
    }
    var minimumAmountOutArray := new byte[8](i => 0);
    assert minimumAmountOutArray[..] == Zeros(8);
    var copiedOut := CopyInto(BEMinimal(minimumAmountOut), minimumAmountOutArray);
    assert minimumAmountOutArray[..] == AmountBlob(minimumAmountOut) by {
      OverwriteZerosIsPad(BEMinimal(minimumAmountOut), 8, copiedOut);
    }
    SwapLayoutEncodes(amountIn, minimumAmountOut);
    var buffer := new byte[Span(SWAP_LAYOUT)](i => 0);
    assert buffer[..] == Zeros(17);
    var values := [Num(SWAP_OPCODE as nat), Raw(amountInArray[..]), Raw(minimumAmountOutArray[..])];
    assert values == SwapValues(amountIn, minimumAmountOut);
    var written := EncodeInto(SWAP_LAYOUT, values, buffer, 0);
    data := buffer[..];
    assert data == Overwrite(Zeros(17), 0, SwapPayload(amountIn, minimumAmountOut));
  }

  /** `createSwapInstruction`: the payload first, then the ten fixed
      entries, and the host-fee entry pushed last when there is one. */
  method BuildSwapInstruction(programId: PublicKey, a: SwapAccounts, hostFeeAccount: Option<PublicKey>,
                              amountIn: nat, minimumAmountOut: nat)
    returns (ix: Instruction)
    ensures ix == SwapInstruction(programId, a, hostFeeAccount, amountIn, minimumAmountOut)
  {
    var data := EncodeSwapData(amountIn, minimumAmountOut);
    var keys := SwapBaseKeys(a);
    if hostFeeAccount.Some? {
      keys := keys + [HostFeeMeta(hostFeeAccount.value)];
    }
    ix := Instruction(keys, programId, data);
  }

  // ---------------------------------------------------------------------
  // How the ledger program reads the amounts.
  // ---------------------------------------------------------------------

  /** The Swap payload as the program reads it: a `u8` opcode and two
      little-endian `u64` amounts. */
  const PROGRAM_SWAP_LAYOUT: seq<FieldKind> := [U8, Nu64, Nu64]

  /** An amount of 256 is sent as bytes 01 00 .. 00, which a little-endian
      `u64` reader takes for 1. */
  lemma AmountBlobMisread()
    ensures Span(PROGRAM_SWAP_LAYOUT) == 17
    ensures Decode(PROGRAM_SWAP_LAYOUT, SwapPayload(256, 0)) == [Num(1), Num(1), Num(0)]
  {
    assert BEMinimal(256) == [1, 0];
    var blob := AmountBlob(256);
    assert blob == [1] + Zeros(7);
    assert blob[1..] == Zeros(7);
    LEValueZeros(7);
    assert LEValue(blob) == 1;
    var zero := AmountBlob(0);
    assert zero == Zeros(8);
    LEValueZeros(8);
    var p := SwapPayload(256, 0);
    var l := PROGRAM_SWAP_LAYOUT;
    assert p[..1] == [1] && p[1..][..8] == blob && p[1..][8..] == zero;
    assert Span(l[1..][1..]) == 8 && Span(l[1..]) == 16;
    assert p[1..][8..][..8] == zero && p[1..][8..][8..] == [];
    assert l[1..][1..][1..] == [];
    assert Decode(l[1..][1..], p[1..][8..]) == [Num(0)];
    assert Decode(l[1..], p[1..]) == [Num(1), Num(0)];
    assert Decode(l, p) == [Num(1)] + [Num(1), Num(0)];
  }

  /** The same reader gets amounts below 256 right, which is why a client
      that only swaps small amounts works. */
  lemma AmountBlobReadAsLE(amount: nat)
    requires amount < 256
    ensures AmountBlob(amount) == LE(amount, 8)
    ensures LEValue(AmountBlob(amount)) == amount
  {
    AmountBlobHoldsAmount(amount);
    LESmall(amount, 8);
    Pow256Eight();
    LERoundTrip(amount, 8);
  }

  /** The payload with each amount as its eight little-endian bytes, the
      encoding the program expects. */
  function SwapPayloadIntended(amountIn: nat, minimumAmountOut: nat): seq<byte>
  {
    [SWAP_OPCODE] + LE(amountIn, 8) + LE(minimumAmountOut, 8)
  }

  /** The little-endian payload is read back with both amounts intact, and
      it is the `u64` struct encoding of them; for amounts below 256 it is
      the payload the client sends today. */
  lemma SwapPayloadIntendedRoundTrip(amountIn: nat, minimumAmountOut: nat)
    requires amountIn < U64_LIMIT && minimumAmountOut < U64_LIMIT
    ensures Encode(PROGRAM_SWAP_LAYOUT, [Num(1), Num(amountIn), Num(minimumAmountOut)])
            == Ok(SwapPayloadIntended(amountIn, minimumAmountOut))
    ensures Decode(PROGRAM_SWAP_LAYOUT, SwapPayloadIntended(amountIn, minimumAmountOut))
            == [Num(1), Num(amountIn), Num(minimumAmountOut)]
    ensures amountIn < 256 && minimumAmountOut < 256 ==>
              SwapPayloadIntended(amountIn, minimumAmountOut) == SwapPayload(amountIn, minimumAmountOut)
  {
    var l := PROGRAM_SWAP_LAYOUT;
    var v := [Num(1), Num(amountIn), Num(minimumAmountOut)];
    assert l[1..][1..][1..] == [] && v[1..][1..][1..] == [];
    assert EncodeField(U8, Num(1)) == Ok([1]);
    assert EncodeField(Nu64, Num(amountIn)) == Ok(LE(amountIn, 8));
    assert EncodeField(Nu64, Num(minimumAmountOut)) == Ok(LE(minimumAmountOut, 8));
    assert Encode(l[1..][1..], v[1..][1..]) == Ok(LE(minimumAmountOut, 8) + []);
    assert Encode(l[1..], v[1..]) == Ok(LE(amountIn, 8) + (LE(minimumAmountOut, 8) + []));
    assert [1] + (LE(amountIn, 8) + (LE(minimumAmountOut, 8) + [])) == SwapPayloadIntended(amountIn, minimumAmountOut);
    assert Encode(l, v) == Ok(SwapPayloadIntended(amountIn, minimumAmountOut));
    DecodeEncode(l, v);
    if amountIn < 256 && minimumAmountOut < 256 {
      AmountBlobReadAsLE(amountIn);
      AmountBlobReadAsLE(minimumAmountOut);
    }
  }

  /** The Swap instruction with the intended payload. */
  function SwapInstructionIntended(programId: PublicKey, a: SwapAccounts, hostFeeAccount: Option<PublicKey>,
                                   amountIn: nat, minimumAmountOut: nat): Instruction
  {
    Instruction(SwapKeys(a, hostFeeAccount), programId, SwapPayloadIntended(amountIn, minimumAmountOut))
  }

  /** Below 256 the client's instruction is the intended one; from 256 on
      the two part, the first case being amountIn = 256. */
  lemma SwapInstructionIntendedAgrees(programId: PublicKey, a: SwapAccounts, hostFeeAccount: Option<PublicKey>,
                                      amountIn: nat, minimumAmountOut: nat)
    ensures amountIn < 256 && minimumAmountOut < 256 ==>
              SwapInstruction(programId, a, hostFeeAccount, amountIn, minimumAmountOut)
              == SwapInstructionIntended(programId, a, hostFeeAccount, amountIn, minimumAmountOut)
    ensures SwapInstruction(programId, a, hostFeeAccount, 256, minimumAmountOut)
            != SwapInstructionIntended(programId, a, hostFeeAccount, 256, minimumAmountOut)
  {
    if amountIn < 256 && minimumAmountOut < 256 {
      Pow256Eight();
      SwapPayloadIntendedRoundTrip(amountIn, minimumAmountOut);
    }
    assert BEMinimal(256) == [1, 0];
    assert SwapPayload(256, minimumAmountOut)[1] == 1;
    assert SwapPayloadIntended(256, minimumAmountOut)[1] == 0;
  }
}
