/** Names that several components compare against (pkg/constants). */
module Constants {
  const PUMP_FUN := "PumpFun"
  const PROGRAM_TOKEN := "TokenkegQfeZyiNwAJbNbGKPFXCWuBvf9Ss623VQ5DA"
}
