/** The bundle data the client and the contracts exchange (signer/types.ts, IWallet.sol). */
module Operations {
  import opened Bytes
  import opened Registry

  type Address = s: seq<Byte> | |s| == 20 witness ZERO_ADDRESS
  const ZERO_ADDRESS: seq<Byte> := [0, 0, 0, 0, 0, 0, 0, 0, 0, 0, 0, 0, 0, 0, 0, 0, 0, 0, 0, 0]

  type PublicKey = s: seq<Word> | |s| == 4 witness ZERO_KEY
  const ZERO_KEY: seq<Word> := [0, 0, 0, 0]

  type Signature = s: seq<Word> | |s| == 2 witness [0, 0]

  type Calldata = s: seq<Byte> | |s| < TWO_256

  datatype ActionData = ActionData(ethValue: Word, contractAddress: Address, encodedFunction: Calldata)

  type Actions = s: seq<ActionData> | |s| < TWO_256

  datatype Operation = Operation(nonce: Word, gas: Word, actions: Actions)

  /** Sender i signs operation i. */
  datatype Bundle = Bundle(senderPublicKeys: seq<PublicKey>, operations: seq<Operation>, signature: Signature)

  predicate Paired(b: Bundle) {
    |b.senderPublicKeys| == |b.operations|
  }

  /** Where the contracts a compressor knows about are deployed. */
  datatype Deployment = Deployment(aggregatorUtilities: Address, blsRegistration: Address)

  /** What both registries hold at some moment. */
  datatype Registries = Registries(keys: Entries<PublicKey>, addresses: Entries<Address>)

  ghost predicate Grows(earlier: Registries, later: Registries) {
    earlier.keys <= later.keys && earlier.addresses <= later.addresses
  }

  /** First four bytes of the hash of `sendEthToTxOrigin()`. */
  const SEND_ETH_TO_TX_ORIGIN: seq<Byte> := [0x1d, 0xfe, 0xa6, 0xa0]

  predicate IsTxOriginPayment(deployment: Deployment, action: ActionData) {
    && action.contractAddress == deployment.aggregatorUtilities
    && action.encodedFunction == SEND_ETH_TO_TX_ORIGIN
  }
}
