/**
 * The client wallet of ClientCommunity.kt. It holds two pools: `verifiedTokens`, tokens
 * that the verifier itself sent, and `unverifiedTokens`, tokens received from other
 * clients. Paying a peer re-signs verified tokens to that peer. Receiving a datagram
 * keeps the tokens addressed to this client whose sender signature checks out, sorts
 * them into the two pools, and then hands the whole unverified pool to the verifier.
 */
module ClientCommunity {
  import opened Bytes
  import opened Wrappers
  import Crypto
  import opened Tokens
  import opened EuroCommunity

  datatype SendOutcome =
    | Sent
    | InsufficientBalance  // the balance check fails: nothing changes, nothing is sent
    | NegativeAmount       // `take` throws on a negative count: nothing changes, nothing is sent

  /** The index of the first peer whose key is `key`, if any (`getVerifier`'s loop). */
  function FindByKey(peers: seq<Peer>, key: seq<byte>): (r: Option<nat>)
    ensures r.Some? ==> r.value < |peers| && peers[r.value].publicKey == key
    ensures r.Some? ==> forall j :: 0 <= j < r.value ==> peers[j].publicKey != key
    ensures r.None? ==> forall j :: 0 <= j < |peers| ==> peers[j].publicKey != key
  {
    if peers == [] then None
    else if peers[0].publicKey == key then Some(0)
    else match FindByKey(peers[1..], key)
      case None => None
      case Some(i) => Some(i + 1)
  }

  /** `getVerifier`: the first peer whose key equals the verifier's key, or none. */
  function GetVerifier(peers: seq<Peer>, verifierKey: seq<byte>): (r: Option<Peer>)
    ensures r.None? <==> forall p <- peers :: p.publicKey != verifierKey
    ensures r.Some? ==> r.value in peers && r.value.publicKey == verifierKey
    ensures r.Some? ==>
      exists i :: 0 <= i < |peers| && peers[i] == r.value && forall j :: 0 <= j < i ==> peers[j].publicKey != verifierKey
  {
    if |peers| == 0 then None
    else match FindByKey(peers, verifierKey)
      case None => None
      case Some(i) => Some(peers[i])
  }

  /** A received token `receive` keeps: addressed to `myKey` and signed by its claimed sender. */
  predicate Acceptable(c: Crypto.Scheme, myKey: seq<byte>, t: Token) {
    t.receiver == myKey && VerifySenderSignature(c, t)
  }

  /** The tokens of a batch that `receive` keeps, in batch order. */
  function Accepted(c: Crypto.Scheme, myKey: seq<byte>, ts: seq<Token>): (r: seq<Token>)
    ensures |r| <= |ts|
  {
    if ts == [] then []
    else
      var last := ts[|ts| - 1];
      Accepted(c, myKey, ts[..|ts| - 1]) + (if Acceptable(c, myKey, last) then [last] else [])
  }

  /** The tokens of a batch whose sender is (`fromVerifier`) or is not (`!fromVerifier`) the verifier. */
  function BySender(ts: seq<Token>, verifierKey: seq<byte>, fromVerifier: bool): (r: seq<Token>)
    ensures |r| <= |ts|
  {
    if ts == [] then []
    else
      var last := ts[|ts| - 1];
      BySender(ts[..|ts| - 1], verifierKey, fromVerifier) + (if (last.sender == verifierKey) == fromVerifier then [last] else [])
  }

  lemma AppendAssoc(a: seq<Token>, b: seq<Token>, c: seq<Token>)
    ensures (a + b) + c == a + (b + c)
  {
  }

  /** Receiving one more token adds it to exactly the pool its sender selects, if it is kept at all. */
  lemma ReceiveStep(c: Crypto.Scheme, myKey: seq<byte>, ts: seq<Token>, t: Token, verifierKey: seq<byte>, fromVerifier: bool)
    ensures BySender(Accepted(c, myKey, ts + [t]), verifierKey, fromVerifier) ==
      BySender(Accepted(c, myKey, ts), verifierKey, fromVerifier) +
      (if Acceptable(c, myKey, t) && (t.sender == verifierKey) == fromVerifier then [t] else [])
  {
    assert (ts + [t])[..|ts + [t]| - 1] == ts;
    var a := Accepted(c, myKey, ts);
    if Acceptable(c, myKey, t) {
      assert Accepted(c, myKey, ts + [t]) == a + [t];
      assert (a + [t])[..|a + [t]| - 1] == a;
    } else {
      assert Accepted(c, myKey, ts + [t]) == a;
    }
  }

  /** A token is kept iff it was in the batch, is addressed to this client and its signature verifies. */
  lemma {:induction false} AcceptedIff(c: Crypto.Scheme, myKey: seq<byte>, ts: seq<Token>, t: Token)
    ensures t in Accepted(c, myKey, ts) <==> t in ts && t.receiver == myKey && VerifySenderSignature(c, t)
  {
    if ts != [] {
      var front := ts[..|ts| - 1];
      AcceptedIff(c, myKey, front, t);
      assert ts == front + [ts[|ts| - 1]];
    }
  }

  /** A kept token goes to the verified pool iff its sender is the verifier, to the unverified pool otherwise. */
  lemma {:induction false} BySenderIff(ts: seq<Token>, verifierKey: seq<byte>, fromVerifier: bool, t: Token)
    ensures t in BySender(ts, verifierKey, fromVerifier) <==> t in ts && (t.sender == verifierKey) == fromVerifier
  {
    if ts != [] {
      var front := ts[..|ts| - 1];
      BySenderIff(front, verifierKey, fromVerifier, t);
      assert ts == front + [ts[|ts| - 1]];
    }
  }

  /** The two pools split the kept tokens between them: nothing is lost or duplicated. */
  lemma {:induction false} BySenderSplits(ts: seq<Token>, verifierKey: seq<byte>)
    ensures |BySender(ts, verifierKey, true)| + |BySender(ts, verifierKey, false)| == |ts|
  {
    if ts != [] {
      BySenderSplits(ts[..|ts| - 1], verifierKey);
    }
  }

  /** The tokens `sendToPeer` sends: the given tokens now from `me` to `to`, re-signed with `key`. */
  function Resigned(c: Crypto.Scheme, key: Crypto.PrivateKey, me: seq<byte>, to: seq<byte>, ts: seq<Token>): (r: seq<Token>)
    ensures |r| == |ts|
  {
    seq(|ts|, i requires 0 <= i < |ts| => Sign(c, ts[i].(sender := me, receiver := to), key))
  }

  /**
   * Every re-signed token keeps its id and value, names this client as sender and the
   * peer as receiver, and carries a signature over these new fields that verifies.
   */
  lemma ResignedVerifies(c: Crypto.Scheme, key: Crypto.PrivateKey, to: seq<byte>, ts: seq<Token>, i: nat)
    requires Crypto.Sound(c) && i < |ts|
    ensures var r := Resigned(c, key, c.pub(key), to, ts)[i];
      r.id == ts[i].id && r.value == ts[i].value && r.sender == c.pub(key) && r.receiver == to &&
      VerifySenderSignature(c, r)
  {
    SignVerifies(c, ts[i].(sender := c.pub(key), receiver := to), key);
  }

  /** Re-addressing and re-signing a prefix of well-sized tokens keeps every width. */
  lemma ResignedWellSized(c: Crypto.Scheme, key: Crypto.PrivateKey, me: KeyBin, to: KeyBin, ts: seq<Token>, k: nat)
    requires AllWellSized(ts) && k <= |ts|
    ensures AllWellSized(Resigned(c, key, me, to, ts[..k]))
  {
    var r := Resigned(c, key, me, to, ts[..k]);
    forall t <- r ensures WellSized(t) {
      var j :| 0 <= j < k && r[j] == t;
      assert ts[j] in ts;
    }
  }

  lemma SliceSnoc(ts: seq<Token>, i: nat)
    requires i < |ts|
    ensures ts[..i + 1] == ts[..i] + [ts[i]]
  {
  }

  /** Every token of a suffix is a token of the whole sequence. */
  lemma SuffixKeeps(ts: seq<Token>, k: nat)
    requires k <= |ts|
    ensures forall t <- ts[k..] :: t in ts
  {
    forall t <- ts[k..] ensures t in ts {
      var j :| k <= j < |ts| && ts[j] == t;
    }
  }

  class Client {
    const crypto: Crypto.Scheme
    const myPrivateKey: Crypto.PrivateKey
    const myPublicKey: KeyBin
    const verifierKey: KeyBin
    const prefix: seq<byte>
    const socket: Socket
    /** The lazily resolved `verifierAddress`: none until a lookup has found the verifier. */
    var verifierAddress: Option<Peer>
    var verifiedTokens: seq<Token>
    var unverifiedTokens: seq<Token>

    /**
     * Both pools hold well-formed tokens addressed to this client; the verified pool holds
     * exactly those sent by the verifier and the unverified pool the others, so the pools are
     * disjoint. Every pooled token passed the signature check when it arrived.
     */
    ghost predicate Valid()
      reads this
    {
      && |prefix| == CommunityPrefixSize && myPublicKey == crypto.pub(myPrivateKey)
      && (verifierAddress.Some? ==> verifierAddress.value.publicKey == verifierKey)
      && AllWellSized(verifiedTokens) && AllWellSized(unverifiedTokens)
      && (forall t <- verifiedTokens :: Acceptable(crypto, myPublicKey, t) && t.sender == verifierKey)
      && (forall t <- unverifiedTokens :: Acceptable(crypto, myPublicKey, t) && t.sender != verifierKey)
    }

    constructor (crypto: Crypto.Scheme, key: Crypto.PrivateKey, verifierKey: KeyBin, prefix: seq<byte>, socket: Socket)
      requires |prefix| == CommunityPrefixSize
      ensures Valid()
      ensures this.crypto == crypto && myPrivateKey == key && myPublicKey == crypto.pub(key)
      ensures this.verifierKey == verifierKey && this.prefix == prefix && this.socket == socket
      ensures verifierAddress == None && verifiedTokens == [] && unverifiedTokens == []
    {
      this.crypto := crypto;
      myPrivateKey := key;
      myPublicKey := crypto.pub(key);
      this.verifierKey := verifierKey;
      this.prefix := prefix;
      this.socket := socket;
      verifierAddress := None;
      verifiedTokens := [];
      unverifiedTokens := [];
    }

    /**
     * `sendToPeer`: unless the balance is too small, takes the first `amount` verified tokens,
     * re-addresses them from this client to the peer, re-signs them, drops them from the
     * verified pool and sends them.
     */
    method SendToPeer(receiver: Peer, amount: int) returns (outcome: SendOutcome)
      requires Valid()
      modifies this, socket
      ensures Valid()
      ensures unverifiedTokens == old(unverifiedTokens) && verifierAddress == old(verifierAddress)
      ensures outcome == InsufficientBalance <==> |old(verifiedTokens)| < amount
      ensures outcome == NegativeAmount <==> amount < 0
      ensures outcome != Sent ==> verifiedTokens == old(verifiedTokens) && socket.sent == old(socket.sent)
      ensures outcome == Sent ==>
        && 0 <= amount <= |old(verifiedTokens)|
        && verifiedTokens == old(verifiedTokens)[amount..]
        && |socket.sent| >= |old(socket.sent)| && socket.sent[..|old(socket.sent)|] == old(socket.sent)
        && AllWellSized(Resigned(crypto, myPrivateKey, myPublicKey, receiver.publicKey, old(verifiedTokens)[..amount]))
        && SentAsBatches(prefix, receiver.address,
             Resigned(crypto, myPrivateKey, myPublicKey, receiver.publicKey, old(verifiedTokens)[..amount]), TokenList,
             socket.sent[|old(socket.sent)|..])
    {
      if |verifiedTokens| < amount {
        return InsufficientBalance;
      }
      if amount < 0 {
        return NegativeAmount;
      }

      var tokensToSend := verifiedTokens[..amount];
      ghost var taken := tokensToSend;
      for i := 0 to |tokensToSend|
        invariant |tokensToSend| == amount
        invariant forall j :: 0 <= j < i ==> tokensToSend[j] == Resigned(crypto, myPrivateKey, myPublicKey, receiver.publicKey, taken)[j]
        invariant forall j :: i <= j < amount ==> tokensToSend[j] == taken[j]
      {
        var token := tokensToSend[i];
        token := token.(sender := myPublicKey, receiver := receiver.publicKey);
        token := Sign(crypto, token, myPrivateKey);
        tokensToSend := tokensToSend[i := token];
      }
      assert tokensToSend == Resigned(crypto, myPrivateKey, myPublicKey, receiver.publicKey, taken);
      ResignedWellSized(crypto, myPrivateKey, myPublicKey, receiver.publicKey, verifiedTokens, amount);
      SuffixKeeps(verifiedTokens, amount);
      verifiedTokens := verifiedTokens[amount..];

      var rest := Send(socket, prefix, receiver.address, tokensToSend, TokenList);
      outcome := Sent;
    }

    /**
     * `sendToBank`: resolves the verifier among `peers` on first use, then sends the whole
     * unverified pool to it, which empties the pool. When the verifier cannot be found, the
     * `!!` of the lazy lookup throws: nothing is sent and the pool stays as it is.
     */
    method SendToBank(peers: seq<Peer>) returns (banked: bool)
      requires Valid()
      modifies this, socket
      ensures Valid()
      ensures verifiedTokens == old(verifiedTokens)
      ensures verifierAddress == if old(verifierAddress).Some? then old(verifierAddress) else GetVerifier(peers, verifierKey)
      ensures banked <==> verifierAddress.Some?
      ensures !banked ==> unverifiedTokens == old(unverifiedTokens) && socket.sent == old(socket.sent)
      ensures banked ==>
        && unverifiedTokens == []
        && |socket.sent| >= |old(socket.sent)| && socket.sent[..|old(socket.sent)|] == old(socket.sent)
        && SentAsBatches(prefix, verifierAddress.value.address, old(unverifiedTokens), TokenSet, socket.sent[|old(socket.sent)|..])
    {
      if verifierAddress.None? {
        verifierAddress := GetVerifier(peers, verifierKey);
      }
      if verifierAddress.None? {
        return false;
      }
      unverifiedTokens := Send(socket, prefix, verifierAddress.value.address, unverifiedTokens, TokenSet);
      banked := true;
    }

    /** Admitting one more token keeps a pool equal to its start plus the pooled tokens so far. */
    lemma PoolStep(start: seq<Token>, before: seq<Token>, after: seq<Token>, ts: seq<Token>, t: Token, fromVerifier: bool)
      requires before == start + BySender(Accepted(crypto, myPublicKey, ts), verifierKey, fromVerifier)
      requires after == before +
        (if Acceptable(crypto, myPublicKey, t) && (t.sender == verifierKey) == fromVerifier then [t] else [])
      ensures after == start + BySender(Accepted(crypto, myPublicKey, ts + [t]), verifierKey, fromVerifier)
    {
      ReceiveStep(crypto, myPublicKey, ts, t, verifierKey, fromVerifier);
      var pooled := BySender(Accepted(crypto, myPublicKey, ts), verifierKey, fromVerifier);
      var added := if Acceptable(crypto, myPublicKey, t) && (t.sender == verifierKey) == fromVerifier then [t] else [];
      AppendAssoc(start, pooled, added);
    }

    /** One iteration of `receive`'s loop: pools `token` by its sender if it is kept, drops it otherwise. */
    method Admit(token: Token)
      requires Valid() && WellSized(token)
      modifies this
      ensures Valid() && verifierAddress == old(verifierAddress)
      ensures verifiedTokens == old(verifiedTokens) +
        (if Acceptable(crypto, myPublicKey, token) && token.sender == verifierKey then [token] else [])
      ensures unverifiedTokens == old(unverifiedTokens) +
        (if Acceptable(crypto, myPublicKey, token) && token.sender != verifierKey then [token] else [])
    {
      if token.receiver != myPublicKey {
        return;
      }
      if !VerifySenderSignature(crypto, token) {
        return;
      }
      if token.sender == verifierKey {
        verifiedTokens := verifiedTokens + [token];
      } else {
        unverifiedTokens := unverifiedTokens + [token];
      }
    }

    /**
     * `receive`: deserializes the datagram; drops each token not addressed to this client or
     * whose signature does not verify under its claimed sender; adds each remaining token to
     * the verified pool if the verifier sent it and to the unverified pool otherwise; then
     * sends the unverified pool to the verifier.
     */
    method Receive(data: seq<byte>, peers: seq<Peer>) returns (banked: bool)
      requires Valid()
      modifies this, socket
      ensures Valid()
      ensures verifiedTokens == old(verifiedTokens) + BySender(Accepted(crypto, myPublicKey, Decoded(data)), verifierKey, true)
      ensures verifierAddress == if old(verifierAddress).Some? then old(verifierAddress) else GetVerifier(peers, verifierKey)
      ensures banked <==> verifierAddress.Some?
      ensures var toBank := old(unverifiedTokens) + BySender(Accepted(crypto, myPublicKey, Decoded(data)), verifierKey, false);
        && AllWellSized(toBank)
        && (!banked ==> unverifiedTokens == toBank && socket.sent == old(socket.sent))
        && (banked ==>
             && unverifiedTokens == []
             && |socket.sent| >= |old(socket.sent)| && socket.sent[..|old(socket.sent)|] == old(socket.sent)
             && SentAsBatches(prefix, verifierAddress.value.address, toBank, TokenSet, socket.sent[|old(socket.sent)|..]))
    {
      var receivedTokens := Deserialize(data);
      AdmitAll(receivedTokens);
      banked := SendToBank(peers);
    }

    /** `receive`'s loop over the deserialized tokens, in order. */
    method AdmitAll(receivedTokens: seq<Token>)
      requires Valid() && AllWellSized(receivedTokens)
      modifies this
      ensures Valid() && verifierAddress == old(verifierAddress)
      ensures verifiedTokens == old(verifiedTokens) + BySender(Accepted(crypto, myPublicKey, receivedTokens), verifierKey, true)
      ensures unverifiedTokens == old(unverifiedTokens) + BySender(Accepted(crypto, myPublicKey, receivedTokens), verifierKey, false)
    {
      for i := 0 to |receivedTokens|
        invariant Valid() && verifierAddress == old(verifierAddress)
        invariant verifiedTokens == old(verifiedTokens) + BySender(Accepted(crypto, myPublicKey, receivedTokens[..i]), verifierKey, true)
        invariant unverifiedTokens == old(unverifiedTokens) + BySender(Accepted(crypto, myPublicKey, receivedTokens[..i]), verifierKey, false)
      {
        var token := receivedTokens[i];
        SliceSnoc(receivedTokens, i);
        assert WellSized(token) by { assert token in receivedTokens; }
        ghost var v, u := verifiedTokens, unverifiedTokens;
        Admit(token);
        PoolStep(old(verifiedTokens), v, verifiedTokens, receivedTokens[..i], token, true);
        PoolStep(old(unverifiedTokens), u, unverifiedTokens, receivedTokens[..i], token, false);
      }
      assert receivedTokens[..|receivedTokens|] == receivedTokens;
    }
  }
}
