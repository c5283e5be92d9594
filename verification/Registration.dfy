/** The registration form: one call to BLSRegistration.register with the sender's own key, and
    optionally a payment to tx.origin (BlsRegistrationCompressor.ts, BLSRegistration.sol). */
module Registration {
  import opened Wrappers
  import opened Bytes
  import opened Operations
  import Vlq
  import PseudoFloat

  // First four bytes of the hash of `register(uint256[4])`.
  const REGISTER: seq<Byte> := [0x95, 0xe4, 0xbf, 0x03]

  function RegisterCalldata(key: PublicKey): Calldata {
    REGISTER + EncodeWords(key)
  }

  /** The compressor: guards, then one joined expression. */
  function Compress(deployment: Deployment, key: PublicKey, op: Operation): Option<seq<Byte>> {
    if |op.actions| > 2 || |op.actions| == 0 then None
    else
      var first := op.actions[0];
      if first.ethValue != 0 || first.contractAddress != deployment.blsRegistration
         || first.encodedFunction != RegisterCalldata(key) then None
      else if |op.actions| == 2
              && (op.actions[1].ethValue == 0 || !IsTxOriginPayment(deployment, op.actions[1])) then None
      else
        var payment := if |op.actions| == 2 then op.actions[1].ethValue else 0;
        Some(EncodeWords(key) + (Vlq.Encode(op.nonce)
             + (PseudoFloat.Encode(op.gas) + PseudoFloat.Encode(payment))))
  }

  /** The operation the contract rebuilds. */
  function Rebuild(deployment: Deployment, key: PublicKey, nonce: Word, gas: Word, payment: Word): Operation {
    var register := ActionData(0, deployment.blsRegistration, RegisterCalldata(key));
    var pay := ActionData(payment, deployment.aggregatorUtilities, SEND_ETH_TO_TX_ORIGIN);
    Operation(nonce, gas, if payment > 0 then [register, pay] else [register])
  }

  function Expand(deployment: Deployment, stream: seq<Byte>): (r: Option<(PublicKey, Operation, seq<Byte>)>)
    ensures r.Some? ==> |r.value.2| < |stream|
  {
    if |stream| < 128 then None
    else
      var key := DecodeWords(stream[..128], 4);
      var (nonce, s1) :- Vlq.Decode(stream[128..]);
      var (gas, s2) :- PseudoFloat.Decode(s1);
      var (payment, s3) :- PseudoFloat.Decode(s2);
      Some((key, Rebuild(deployment, key, nonce, gas, payment), s3))
  }

  /** Exactly the operations the contract can rebuild are accepted. */
  lemma AcceptsExactlyRebuildable(deployment: Deployment, key: PublicKey, op: Operation)
    ensures Compress(deployment, key, op).Some? <==>
            exists payment: Word :: op == Rebuild(deployment, key, op.nonce, op.gas, payment)
  {
    if Compress(deployment, key, op).Some? {
      var payment: Word := if |op.actions| == 2 then op.actions[1].ethValue else 0;
      assert op == Rebuild(deployment, key, op.nonce, op.gas, payment);
    }
  }

  lemma FieldsRead(deployment: Deployment, key: PublicKey, nonce: Word, gas: Word, payment: Word, stream: seq<Byte>)
    ensures Expand(deployment, EncodeWords(key) + (Vlq.Encode(nonce)
                               + (PseudoFloat.Encode(gas) + PseudoFloat.Encode(payment))) + stream)
            == Some((key, Rebuild(deployment, key, nonce, gas, payment), stream))
  {
    var k, n, g, p := EncodeWords(key), Vlq.Encode(nonce), PseudoFloat.Encode(gas), PseudoFloat.Encode(payment);
    var whole := (k + (n + (g + p))) + stream;
    assert whole[..128] == k && whole[128..] == n + (g + (p + stream));
    WordsRoundTrip(key);
    Vlq.WordRoundTrip(nonce, g + (p + stream));
    PseudoFloat.RoundTrip(gas, p + stream);
    PseudoFloat.RoundTrip(payment, stream);
  }

  /** Every accepted operation comes back whole: no registry is involved. */
  lemma RoundTrip(deployment: Deployment, key: PublicKey, op: Operation, stream: seq<Byte>)
    requires Compress(deployment, key, op).Some?
    ensures Expand(deployment, Compress(deployment, key, op).value + stream) == Some((key, op, stream))
  {
    var payment: Word := if |op.actions| == 2 then op.actions[1].ethValue else 0;
    FieldsRead(deployment, key, op.nonce, op.gas, payment, stream);
    assert op == Rebuild(deployment, key, op.nonce, op.gas, payment);
  }
}
