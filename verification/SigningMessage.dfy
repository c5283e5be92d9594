/** What a wallet signs (signer/encodeMessageForSigning.ts). The hash is an arbitrary function into
    32 bytes. */
module SigningMessage {
  import opened Bytes
  import opened Operations

  type Hash = seq<Byte> -> Word

  /** `solidityPack` writes an address as its 20 bytes. */
  function EncodeAction(hash: Hash, action: ActionData): (bytes: seq<Byte>)
    ensures |bytes| == 84
  {
    EncodeWord(action.ethValue) + action.contractAddress + EncodeWord(hash(action.encodedFunction))
  }

  function EncodeActions(hash: Hash, actions: seq<ActionData>): (bytes: seq<Byte>)
    ensures |bytes| == 84 * |actions|
  {
    if actions == [] then []
    else EncodeActions(hash, actions[..|actions| - 1]) + EncodeAction(hash, actions[|actions| - 1])
  }

  function Message(hash: Hash, operation: Operation, walletAddress: Address): (bytes: seq<Byte>)
    ensures |bytes| == 84
  {
    walletAddress + EncodeWord(operation.nonce) + EncodeWord(hash(EncodeActions(hash, operation.actions)))
  }

  method EncodeMessageForSigning(hash: Hash, operation: Operation, walletAddress: Address) returns (message: seq<Byte>)
    ensures message == Message(hash, operation, walletAddress)
  {
    var actions := operation.actions;
    var encodedActionData := [];
    for i := 0 to |actions|
      invariant encodedActionData == EncodeActions(hash, actions[..i])
    {
      assert actions[..i + 1][..i] == actions[..i];
      encodedActionData := encodedActionData + EncodeWord(actions[i].ethValue) + actions[i].contractAddress
                           + EncodeWord(hash(actions[i].encodedFunction));
    }
    assert actions[..|actions|] == actions;
    message := walletAddress + EncodeWord(operation.nonce) + EncodeWord(hash(encodedActionData));
  }

  ghost predicate Collision(hash: Hash, x: seq<Byte>, y: seq<Byte>) {
    x != y && hash(x) == hash(y)
  }

  lemma SameWord(a: Word, b: Word)
    requires EncodeWord(a) == EncodeWord(b)
    ensures a == b
  {
    WordRoundTrip(a);
    WordRoundTrip(b);
  }

  /** Where an action's ether, address and data hash stand. */
  lemma ActionLayout(hash: Hash, action: ActionData)
    ensures var bytes := EncodeAction(hash, action);
            && bytes[..32] == EncodeWord(action.ethValue)
            && bytes[32..52] == action.contractAddress
            && bytes[52..] == EncodeWord(hash(action.encodedFunction))
  {
  }

  /** Where each action stands: they take 84 bytes each, in order. */
  lemma {:induction false} ActionsLayout(hash: Hash, actions: seq<ActionData>, i: nat)
    requires i < |actions|
    ensures var bytes := EncodeActions(hash, actions)[84 * i..84 * (i + 1)];
            && bytes[..32] == EncodeWord(actions[i].ethValue)
            && bytes[32..52] == actions[i].contractAddress
            && bytes[52..] == EncodeWord(hash(actions[i].encodedFunction))
    decreases |actions|
  {
    var n := |actions| - 1;
    var front, bytes := EncodeActions(hash, actions[..n]), EncodeActions(hash, actions);
    assert bytes == front + EncodeAction(hash, actions[n]);
    if i < n {
      ActionsLayout(hash, actions[..n], i);
      assert bytes[84 * i..84 * (i + 1)] == front[84 * i..84 * (i + 1)];
    } else {
      ActionLayout(hash, actions[n]);
      assert bytes[84 * i..84 * (i + 1)] == EncodeAction(hash, actions[n]);
    }
  }

  /** Where a message's wallet, nonce and hash stand. */
  lemma MessageLayout(hash: Hash, operation: Operation, wallet: Address)
    ensures var message := Message(hash, operation, wallet);
            && message[..20] == wallet
            && message[20..52] == EncodeWord(operation.nonce)
            && message[52..] == EncodeWord(hash(EncodeActions(hash, operation.actions)))
  {
  }

  lemma SameActionFields(hash: Hash, a: ActionData, b: ActionData)
    requires EncodeAction(hash, a) == EncodeAction(hash, b)
    ensures a.ethValue == b.ethValue && a.contractAddress == b.contractAddress
    ensures hash(a.encodedFunction) == hash(b.encodedFunction)
  {
    ActionLayout(hash, a);
    ActionLayout(hash, b);
    SameWord(a.ethValue, b.ethValue);
    SameWord(hash(a.encodedFunction), hash(b.encodedFunction));
  }

  /** Different actions pack to the same bytes only across a collision of call data. */
  lemma {:induction false} SameActions(hash: Hash, a: seq<ActionData>, b: seq<ActionData>)
    returns (x: seq<Byte>, y: seq<Byte>)
    requires EncodeActions(hash, a) == EncodeActions(hash, b)
    ensures a == b || Collision(hash, x, y)
    decreases |a|
  {
    x, y := [], [];
    if a == [] {
    } else {
      var n := |a| - 1;
      var ea, eb := EncodeActions(hash, a), EncodeActions(hash, b);
      assert ea[..84 * n] == EncodeActions(hash, a[..n]) && eb[..84 * n] == EncodeActions(hash, b[..n]);
      assert ea[84 * n..] == EncodeAction(hash, a[n]) && eb[84 * n..] == EncodeAction(hash, b[n]);
      SameActionFields(hash, a[n], b[n]);
      x, y := SameActions(hash, a[..n], b[..n]);
      if a[..n] == b[..n] {
        x, y := a[n].encodedFunction, b[n].encodedFunction;
        assert a == a[..n] + [a[n]] && b == b[..n] + [b[n]];
      }
    }
  }

  /** What a message determines: the wallet, the nonce and the hash of the actions; not the gas. */
  lemma MessagesAgree(hash: Hash, op1: Operation, wallet1: Address, op2: Operation, wallet2: Address)
    ensures Message(hash, op1, wallet1) == Message(hash, op2, wallet2) <==>
            && wallet1 == wallet2 && op1.nonce == op2.nonce
            && hash(EncodeActions(hash, op1.actions)) == hash(EncodeActions(hash, op2.actions))
  {
    var m1, m2 := Message(hash, op1, wallet1), Message(hash, op2, wallet2);
    var hash1, hash2 := hash(EncodeActions(hash, op1.actions)), hash(EncodeActions(hash, op2.actions));
    if m1 == m2 {
      MessageLayout(hash, op1, wallet1);
      MessageLayout(hash, op2, wallet2);
      SameWord(op1.nonce, op2.nonce);
      SameWord(hash1, hash2);
    }
  }

  /** A signature is good for one wallet, one nonce and one list of actions: any other operation with
      the same message comes with two inputs on which the hash collides. */
  lemma SameMessage(hash: Hash, op1: Operation, wallet1: Address, op2: Operation, wallet2: Address)
    returns (x: seq<Byte>, y: seq<Byte>)
    requires Message(hash, op1, wallet1) == Message(hash, op2, wallet2)
    ensures wallet1 == wallet2 && op1.nonce == op2.nonce
    ensures op1.actions == op2.actions || Collision(hash, x, y)
  {
    MessagesAgree(hash, op1, wallet1, op2, wallet2);
    x, y := EncodeActions(hash, op1.actions), EncodeActions(hash, op2.actions);
    if x == y {
      x, y := SameActions(hash, op1.actions, op2.actions);
    }
  }
}
