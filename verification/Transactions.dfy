/**
 Version 1 transactions. Digests, keys and signatures are the big-endian values of their bytes; a
 transaction id is the digest of the encoding, so it is a function of the transaction that the state
 layer takes as a parameter.
 */
module Transactions {
  import opened Ranking
  import opened Words

  type PublicKey = nat
  type Signature = nat

  datatype TxType =
    | Transfer
    | Coinbase
    | Mandate
    | IdentityRegistration
    | KleosAttestation
    | GovernanceVote
    | Checkpoint

  datatype Network = Mainnet | Testnet | Devnet

  datatype Address = Address(network: Network, spend: PublicKey, view: PublicKey)

  datatype OutputRef = OutputRef(tx: Hash, index: nat)

  datatype TxIn = TxIn(output: OutputRef, key: PublicKey, signature: Signature)

  datatype TxOut = TxOut(address: Address, amount: u64)

  datatype Transaction = Transaction(
    txType: TxType, fee: u64, inputs: seq<TxIn>, outputs: seq<TxOut>, extra: seq<u8>)
}
