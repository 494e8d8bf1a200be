/** The devnet client's Swap builder. Its body is the localnet one's; the
    program id it fills in is the one the Token Swap client library
    exports, which this model takes as a parameter. */
module Devnet {
  import opened Bytes
  import opened TokenSwap
  import Localnet

  /** `createSwapInstruction`, against the library's program id. */
  method CreateSwapInstruction(swapProgramId: PublicKey, a: SwapAccounts, hostFeeAccount: Option<PublicKey>,
                               amountIn: nat, minimumAmountOut: nat)
    returns (ix: Instruction)
    ensures ix == SwapInstruction(swapProgramId, a, hostFeeAccount, amountIn, minimumAmountOut)
  {
    ix := BuildSwapInstruction(swapProgramId, a, hostFeeAccount, amountIn, minimumAmountOut);
  }

  /** For the same arguments the two clients send the same account list
      and the same payload; only the program id can differ. */
  lemma SameSwapAsLocalnet(swapProgramId: PublicKey, a: SwapAccounts, hostFeeAccount: Option<PublicKey>,
                           amountIn: nat, minimumAmountOut: nat)
    ensures var dev := SwapInstruction(swapProgramId, a, hostFeeAccount, amountIn, minimumAmountOut);
            var local := SwapInstruction(Localnet.TOKEN_SWAP_PROGRAM_ID, a, hostFeeAccount, amountIn, minimumAmountOut);
            && dev.keys == local.keys
            && dev.data == local.data
            && dev.programId == swapProgramId
            && dev == local.(programId := swapProgramId)
  {
  }

  /** The swap the devnet client submits: 50 in, at least 45 out, with a
      host-fee account, gives the same eleven entries and seventeen bytes
      as on localnet, and is the intended little-endian instruction. */
  lemma SwapScenario(swapProgramId: PublicKey, a: SwapAccounts, host: PublicKey)
    ensures var ix := SwapInstruction(swapProgramId, a, Some(host), 50, 45);
            && ix.programId == swapProgramId
            && |ix.keys| == 11
            && ix.keys[10] == AccountMeta(host, false, true)
            && ix.data == [1, 0x32, 0, 0, 0, 0, 0, 0, 0, 0x2D, 0, 0, 0, 0, 0, 0, 0]
            && ix == SwapInstructionIntended(swapProgramId, a, Some(host), 50, 45)
  {
    Localnet.SwapScenario(a, host);
    SameSwapAsLocalnet(swapProgramId, a, Some(host), 50, 45);
    SwapInstructionIntendedAgrees(swapProgramId, a, Some(host), 50, 45);
  }
}
