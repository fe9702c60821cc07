/**
 * What the bot records and says: the entries it pushes onto the in-memory `logs` array, and
 * the texts of the chat replies the wallet-input handlers send.
 */
module Activity {
  /** A Telegram chat identifier (`msg.chat.id`). */
  type ChatId = int

  /** One entry of `logs`. Each constructor stands for the template the source pushes;
      the numbers are kept as base units instead of their printed decimal form. */
  datatype Event =
    | AddWalletRequestSent                              // "Add wallet request message sent"
    | AddBulkRequestSent                                // "Add bulk wallets request message sent"
    | BulkAdded(name: string, address: string)          // "Bulk added wallet <name> with address <address>"
    | BulkInvalid(line: string)                         // "Invalid address format provided in bulk: <line>"
    | WalletAdded(name: string)                         // "Wallet <name> added successfully"
    | InvalidAddressFormat                              // "Invalid address format provided"
    | InvalidInputFormat                                // "Invalid input format provided"
    | NoWalletsLogged                                   // "No wallet addresses available for balance checking."
    | InvalidResponse(url: string)                      // "Invalid or empty response from <url>"
    | FetchFailed(address: string, endpoint: string)    // "Failed to fetch data for address <address> from <endpoint>: ..."
    | Converted(address: string, kind: string, wei: nat) // "Converted balance for <address> from <kind>: <balance>"
    | NoBalance(kind: string, address: string)          // "No balance for <kind> token at address <address>"
    | UnexpectedStructure                               // "Unexpected response structure"

  /** One call of `bot.sendMessage(chat, text)`. */
  datatype Reply = Reply(chat: ChatId, text: string)

  const AddWalletPrompt := "Please provide the wallet address and name in the format: <address> <name>"
  const AddBulkPrompt := "Please provide the wallet address and name pairs, separated by tabs or new lines."
  const BulkAddedReply := "Bulk wallets have been added successfully."
  const InvalidAddressReply := "Invalid address format. Please make sure it starts with '0x'."
  const InvalidInputReply := "Invalid input format. Please use the format: <address> <name>"
  const NoWalletsText := "No wallet addresses available for balance checking."

  function WalletAddedReply(name: string, address: string): string {
    "Wallet " + name + " with address " + address + " has been added successfully."
  }
}
