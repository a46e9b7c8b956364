/** A decoded trade and the pair it belongs to (consumer/internal/logic/sol/block/types.go). */
module Trades {

  datatype Kind = Buy | Sell

  datatype PairInfo = PairInfo(
    addr: string, baseTokenAddr: string, tokenAddr: string, tokenSymbol: string,
    baseTokenDecimal: nat, tokenDecimal: nat,
    initTokenAmount: real, initBaseTokenAmount: real, tokenTotalSupply: real,
    blockNum: int, blockTime: int)

  datatype Trade = Trade(
    slot: int, pairAddr: string, txHash: string, maker: string, to: string, kind: Kind,
    baseTokenAmount: real, tokenAmount: real,
    baseTokenPriceUSD: real, totalUSD: real, tokenPriceUSD: real,
    blockTime: int, swapName: string,
    currentTokenInPool: real, currentBaseTokenInPool: real,
    fdv: real, mcap: real,
    pumpPoint: real, pumpStatus: int, pumpVirtualBase: real, pumpVirtualToken: real,
    pairInfo: PairInfo)
}
