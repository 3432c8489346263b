/**
 * The verifier of VerifierCommunity.kt. It keeps a ledger from token id to its own record
 * of each token's custody chain. It mints tokens to a client (`createAndSend`) and
 * reconciles the chains that clients submit (`onEvaComplete`). A submitted chain is
 * accepted only when it continues from the anchor the ledger expects. The ledger then
 * records the new links, and the client gets back a compacted token: a single link,
 * signed by the verifier, whose anchor is the last proof of the submitted chain.
 *
 * This verifier works on a richer token than the fixed-width records of module Tokens:
 * a token carries the verifier's key, an anchor ("genesis hash") and a list of recipient
 * links. `verifyRecipients`, the check of those links, is a parameter of the verifier.
 */
module VerifierCommunity {
  import opened Bytes
  import opened Wrappers
  import Crypto
  import opened EuroCommunity

  /** One custody link: the next holder's key and the previous holder's signature. */
  datatype RecipientPair = RecipientPair(publicKey: seq<byte>, proof: seq<byte>)

  datatype ChainToken = ChainToken(
    id: seq<byte>,
    value: byte,
    verifier: seq<byte>,
    genesisHash: seq<byte>,
    recipients: seq<RecipientPair>,
    numRecipients: int)

  /** `TokenId`: a ledger key that compares ids by content, as a datatype does. */
  datatype TokenId = TokenId(id: seq<byte>)

  /** The random parts of a freshly created token: its id and its initial anchor. */
  datatype Mint = Mint(id: seq<byte>, genesisHash: seq<byte>)

  /** A message the verifier hands to the network layer: tokens for a peer. */
  datatype Reply = Reply(to: Peer, tokens: seq<ChainToken>)

  /** Why a submitted token got no reply and left the ledger alone. */
  datatype Skip = AlreadyVerified | ForeignVerifier | UnknownId | ValueChanged | BadRecipients | DoubleSpendSuspect

  /** The outcome of one submitted token. `Aborted` is an exception that ends the whole batch. */
  datatype Step =
    | Skipped(reason: Skip)
    | Accepted(stored: ChainToken, reply: ChainToken)
    | Aborted

  /** The ledger and replies after a batch, and whether an exception cut it short. */
  datatype Batch = Batch(ledger: map<TokenId, ChainToken>, replies: seq<ChainToken>, aborted: bool)

  /** Every entry is filed under its own id and counts exactly its recipient links. */
  predicate LedgerValid(ledger: map<TokenId, ChainToken>) {
    forall k <- ledger :: k == TokenId(ledger[k].id) && ledger[k].numRecipients == |ledger[k].recipients|
  }

  /** The bytes the verifier signs for a compacted link: id, value, anchor, then the recipient's key. */
  function CompactionMessage(t: ChainToken, anchor: seq<byte>, recipient: seq<byte>): (m: seq<byte>)
    ensures |m| == |t.id| + 1 + |anchor| + |recipient|
    ensures m[|t.id|] == t.value && m[|t.id| + 1..|t.id| + 1 + |anchor|] == anchor
  {
    t.id + [t.value] + anchor + recipient
  }

  /**
   * The anchor the ledger expects a submission to continue from: the stored genesis hash
   * while no link has been recorded, otherwise the proof of the last recorded link. `None`
   * is the exception `last()` throws when the count says links exist but none are stored.
   */
  function ExpectedAnchor(stored: ChainToken): (r: Option<seq<byte>>)
    ensures stored.numRecipients == 0 ==> r == Some(stored.genesisHash)
    ensures stored.numRecipients != 0 && stored.recipients != [] ==>
      r == Some(stored.recipients[|stored.recipients| - 1].proof)
    ensures r.None? <==> stored.numRecipients != 0 && stored.recipients == []
  {
    if stored.numRecipients == 0 then Some(stored.genesisHash)
    else if stored.recipients == [] then None
    else Some(stored.recipients[|stored.recipients| - 1].proof)
  }

  /** `createAndSend` without its `removeLast`: the ledger keeps no recipient link for a new token. */
  function Stripped(t: ChainToken): (r: ChainToken)
    ensures r.id == t.id && r.value == t.value && r.verifier == t.verifier && r.genesisHash == t.genesisHash
    ensures r.numRecipients == 0 && |r.recipients| == if t.recipients == [] then 0 else |t.recipients| - 1
  {
    t.(recipients := if t.recipients == [] then [] else t.recipients[..|t.recipients| - 1], numRecipients := 0)
  }

  /** The entries `createAndSend` stores for the given sent tokens, later ones overwriting earlier. */
  function StoreAll(ledger: map<TokenId, ChainToken>, sent: seq<ChainToken>): (r: map<TokenId, ChainToken>)
    decreases |sent|
  {
    if sent == [] then ledger
    else StoreAll(ledger[TokenId(sent[0].id) := Stripped(sent[0])], sent[1..])
  }

  /** Prepends replies decided before the rest of a batch was processed. */
  function Prepend(replies: seq<ChainToken>, b: Batch): Batch {
    Batch(b.ledger, replies + b.replies, b.aborted)
  }

  class Verifier {
    const crypto: Crypto.Scheme
    const myPrivateKey: Crypto.PrivateKey
    const myPublicKey: KeyBin
    /** `Token.verifyRecipients`: the check of a submitted chain's links, given the verifier's key. */
    const verifyRecipients: (ChainToken, seq<byte>) -> bool
    /** The ledger, `tokens`. */
    var tokens: map<TokenId, ChainToken>
    /** Everything handed to the network layer so far, in order. */
    var outbox: seq<Reply>

    ghost predicate Valid()
      reads this
    {
      myPublicKey == crypto.pub(myPrivateKey) && LedgerValid(tokens)
    }

    constructor (crypto: Crypto.Scheme, key: Crypto.PrivateKey, verifyRecipients: (ChainToken, seq<byte>) -> bool)
      ensures Valid()
      ensures this.crypto == crypto && myPrivateKey == key && myPublicKey == crypto.pub(key)
      ensures this.verifyRecipients == verifyRecipients && tokens == map[] && outbox == []
    {
      this.crypto := crypto;
      myPrivateKey := key;
      myPublicKey := crypto.pub(key);
      this.verifyRecipients := verifyRecipients;
      tokens := map[];
      outbox := [];
    }

    /**
     * `signByVerifier`: the token re-anchored at `anchor`, with its chain replaced by a single
     * link to `recipient` that the verifier signs over id, value, anchor and recipient.
     */
    function SignByVerifier(t: ChainToken, anchor: seq<byte>, recipient: seq<byte>): (r: ChainToken)
      ensures r.id == t.id && r.value == t.value && r.verifier == t.verifier
      ensures r.genesisHash == anchor && r.numRecipients == 1 && |r.recipients| == 1
      ensures r.recipients[0].publicKey == recipient
    {
      var proof := crypto.sign(myPrivateKey, CompactionMessage(t, anchor, recipient));
      t.(genesisHash := anchor, recipients := [RecipientPair(recipient, proof)], numRecipients := 1)
    }

    /** A compacted token's one link verifies under the verifier's key over the compaction message. */
    lemma SignByVerifierVerifies(t: ChainToken, anchor: seq<byte>, recipient: seq<byte>)
      requires Crypto.Sound(crypto) && myPublicKey == crypto.pub(myPrivateKey)
      ensures var r := SignByVerifier(t, anchor, recipient);
        crypto.verify(myPublicKey, r.recipients[0].proof, CompactionMessage(t, anchor, recipient))
    {
      var m := CompactionMessage(t, anchor, recipient);
      assert crypto.verify(crypto.pub(myPrivateKey), crypto.sign(myPrivateKey, m), m);
    }

    /** The token `createAndSend` mints for `receiver`: value 1, our key, one signed link. */
    function Minted(m: Mint, receiver: seq<byte>): (r: ChainToken)
      ensures r.id == m.id && r.value == 1 && r.verifier == myPublicKey && r.genesisHash == m.genesisHash
      ensures r.numRecipients == 1 && |r.recipients| == 1 && r.recipients[0].publicKey == receiver
    {
      SignByVerifier(ChainToken(m.id, 1, myPublicKey, m.genesisHash, [], 0), m.genesisHash, receiver)
    }

    /**
     * What `onEvaComplete` does with one submitted token against `ledger`, check by check
     * in the source's order. A token whose anchor differs is a suspected double spend;
     * `findDoubleSpend` does nothing, so it is only skipped.
     */
    function StepOn(ledger: map<TokenId, ChainToken>, t: ChainToken): (s: Step)
      ensures s.Accepted? ==> TokenId(t.id) in ledger && t.recipients != []
    {
      if t.numRecipients == 1 then Skipped(AlreadyVerified)
      else if t.verifier != myPublicKey then Skipped(ForeignVerifier)
      else if TokenId(t.id) !in ledger then Skipped(UnknownId)
      else
        var old_ := ledger[TokenId(t.id)];
        if old_.value != t.value then Skipped(ValueChanged)
        else if !verifyRecipients(t, myPublicKey) then Skipped(BadRecipients)
        else match ExpectedAnchor(old_)
          case None => Aborted
          case Some(anchor) =>
            if anchor != t.genesisHash then Skipped(DoubleSpendSuspect)
            else if t.recipients == [] then Aborted
            else
              var last := t.recipients[|t.recipients| - 1];
              Accepted(
                old_.(recipients := old_.recipients + t.recipients, numRecipients := old_.numRecipients + |t.recipients|),
                SignByVerifier(t, last.proof, last.publicKey))
    }

    /** `onEvaComplete`'s loop over a batch, in order, stopping at the first exception. */
    function Process(ledger: map<TokenId, ChainToken>, ts: seq<ChainToken>): (b: Batch)
      decreases |ts|
    {
      if ts == [] then Batch(ledger, [], false)
      else match StepOn(ledger, ts[0])
        case Skipped(_) => Process(ledger, ts[1..])
        case Aborted => Batch(ledger, [], true)
        case Accepted(stored, reply) =>
          Prepend([reply], Process(ledger[TokenId(ts[0].id) := stored], ts[1..]))
    }

    /** A token is skipped when it is already verified, foreign, unknown, revalued or its links fail. */
    lemma SkipReasons(ledger: map<TokenId, ChainToken>, t: ChainToken)
      ensures t.numRecipients == 1 ==> StepOn(ledger, t) == Skipped(AlreadyVerified)
      ensures t.numRecipients != 1 && t.verifier != myPublicKey ==> StepOn(ledger, t) == Skipped(ForeignVerifier)
      ensures t.numRecipients != 1 && t.verifier == myPublicKey && TokenId(t.id) !in ledger ==>
        StepOn(ledger, t) == Skipped(UnknownId)
      ensures t.numRecipients != 1 && t.verifier == myPublicKey && TokenId(t.id) in ledger ==>
        (ledger[TokenId(t.id)].value != t.value ==> StepOn(ledger, t) == Skipped(ValueChanged)) &&
        (ledger[TokenId(t.id)].value == t.value && !verifyRecipients(t, myPublicKey) ==>
          StepOn(ledger, t) == Skipped(BadRecipients))
    {
    }

    /** A skipped token changes nothing and does not stop the tokens after it. */
    lemma SkipContinues(ledger: map<TokenId, ChainToken>, t: ChainToken, rest: seq<ChainToken>)
      requires StepOn(ledger, t).Skipped?
      ensures Process(ledger, [t] + rest) == Process(ledger, rest)
    {
      assert ([t] + rest)[1..] == rest;
    }

    /** A token is accepted exactly when it passes every check and continues from the expected anchor. */
    lemma AcceptedIff(ledger: map<TokenId, ChainToken>, t: ChainToken)
      ensures StepOn(ledger, t).Accepted? <==>
        && t.numRecipients != 1 && t.verifier == myPublicKey && TokenId(t.id) in ledger
        && ledger[TokenId(t.id)].value == t.value && verifyRecipients(t, myPublicKey)
        && ExpectedAnchor(ledger[TokenId(t.id)]) == Some(t.genesisHash)
        && t.recipients != []
    {
    }

    /**
     * On acceptance the stored entry gains the submitted links after its own, its count grows
     * by their number, and its id, value, verifier key and anchor stay put.
     */
    lemma AcceptanceAppends(ledger: map<TokenId, ChainToken>, t: ChainToken)
      requires StepOn(ledger, t).Accepted?
      ensures var old_ := ledger[TokenId(t.id)]; var s := StepOn(ledger, t).stored;
        && s.recipients == old_.recipients + t.recipients
        && s.numRecipients == old_.numRecipients + |t.recipients|
        && s.id == old_.id && s.value == old_.value && s.verifier == old_.verifier
        && s.genesisHash == old_.genesisHash
    {
    }

    /**
     * The compacted reply to an accepted token is anchored at exactly the proof the ledger now
     * expects next, so a continuation from it passes the anchor test; its single link goes to
     * the last submitted recipient and verifies under the verifier's key.
     */
    lemma ReplyAnchorsAtLedger(ledger: map<TokenId, ChainToken>, t: ChainToken)
      requires LedgerValid(ledger) && StepOn(ledger, t).Accepted?
      requires Crypto.Sound(crypto) && myPublicKey == crypto.pub(myPrivateKey)
      ensures var s := StepOn(ledger, t).stored; var r := StepOn(ledger, t).reply;
        && ExpectedAnchor(s) == Some(r.genesisHash)
        && r.genesisHash == t.recipients[|t.recipients| - 1].proof
        && r.recipients[0].publicKey == t.recipients[|t.recipients| - 1].publicKey
        && r.id == t.id && r.value == t.value && r.numRecipients == 1
        && crypto.verify(myPublicKey, r.recipients[0].proof, CompactionMessage(t, r.genesisHash, r.recipients[0].publicKey))
    {
      var last := t.recipients[|t.recipients| - 1];
      var s := StepOn(ledger, t).stored;
      assert s.recipients[|s.recipients| - 1] == last;
      SignByVerifierVerifies(t, last.proof, last.publicKey);
    }

    /**
     * Spending the same anchor twice: once a token has been accepted, a second submission that
     * claims the old anchor is rejected as a suspected double spend, unless the accepted chain
     * happened to end in that very anchor.
     */
    lemma SecondSpendRejected(ledger: map<TokenId, ChainToken>, t: ChainToken, u: ChainToken)
      requires LedgerValid(ledger) && StepOn(ledger, t).Accepted?
      requires u.id == t.id && u.value == t.value && u.verifier == myPublicKey && u.numRecipients != 1
      requires verifyRecipients(u, myPublicKey) && u.genesisHash == t.genesisHash
      requires t.recipients[|t.recipients| - 1].proof != t.genesisHash
      ensures StepOn(ledger[TokenId(t.id) := StepOn(ledger, t).stored], u) == Skipped(DoubleSpendSuspect)
    {
      var s := StepOn(ledger, t).stored;
      assert s.recipients[|s.recipients| - 1] == t.recipients[|t.recipients| - 1];
    }

    /**
     * A batch preserves the ledger's shape: the same ids, each still filed under itself with
     * its count matching its links, and each entry's value, verifier key and anchor unchanged.
     */
    lemma {:induction false} ProcessPreserves(ledger: map<TokenId, ChainToken>, ts: seq<ChainToken>)
      requires LedgerValid(ledger)
      decreases |ts|
      ensures var l := Process(ledger, ts).ledger;
        && LedgerValid(l) && l.Keys == ledger.Keys
        && forall k <- l :: l[k].value == ledger[k].value && l[k].genesisHash == ledger[k].genesisHash &&
             l[k].verifier == ledger[k].verifier
    {
      if ts != [] {
        match StepOn(ledger, ts[0])
        case Skipped(_) =>
          ProcessPreserves(ledger, ts[1..]);
        case Aborted =>
        case Accepted(stored, reply) =>
          var next := ledger[TokenId(ts[0].id) := stored];
          AcceptanceAppends(ledger, ts[0]);
          assert LedgerValid(next);
          ProcessPreserves(next, ts[1..]);
      }
    }

    /** A batch that ends in an exception sends nothing; every accepted token earns one reply. */
    lemma {:induction false} RepliesAreAccepted(ledger: map<TokenId, ChainToken>, ts: seq<ChainToken>)
      decreases |ts|
      ensures |Process(ledger, ts).replies| <= |ts|
      ensures forall r <- Process(ledger, ts).replies :: r.numRecipients == 1 && exists t <- ts :: r.id == t.id
    {
      if ts != [] {
        match StepOn(ledger, ts[0])
        case Skipped(_) =>
          RepliesAreAccepted(ledger, ts[1..]);
        case Aborted =>
        case Accepted(stored, reply) =>
          RepliesAreAccepted(ledger[TokenId(ts[0].id) := stored], ts[1..]);
          assert ts[0] in ts;
          forall r <- Process(ledger, ts).replies ensures r.numRecipients == 1 && exists t <- ts :: r.id == t.id {
            if r != reply {
              var t :| t in ts[1..] && r.id == t.id;
              assert t in ts;
            }
          }
      }
    }

    /**
     * One iteration of `onEvaComplete`'s loop: the checks in order, and on acceptance the
     * ledger update and the compacted reply. `abort` is the exception of `last()`.
     */
    method Handle(token: ChainToken) returns (reply: Option<ChainToken>, abort: bool)
      requires Valid()
      modifies this
      ensures Valid() && outbox == old(outbox)
      ensures match StepOn(old(tokens), token)
        case Skipped(_) => tokens == old(tokens) && reply == None && !abort
        case Aborted => tokens == old(tokens) && abort
        case Accepted(stored, r) =>
          tokens == old(tokens)[TokenId(token.id) := stored] && reply == Some(r) && !abort
    {
      reply, abort := None, false;
      if token.numRecipients == 1 {
        return;
      }
      if token.verifier != myPublicKey {
        return;
      }
      if TokenId(token.id) !in tokens {
        return;
      }
      var oldToken := tokens[TokenId(token.id)];
      if oldToken.value != token.value {
        return;
      }
      if !verifyRecipients(token, myPublicKey) {
        return;
      }
      var lastRedeemedProof;
      if oldToken.numRecipients == 0 {
        lastRedeemedProof := oldToken.genesisHash;
      } else if oldToken.recipients == [] {
        return None, true;
      } else {
        lastRedeemedProof := oldToken.recipients[|oldToken.recipients| - 1].proof;
      }
      if lastRedeemedProof != token.genesisHash {
        return;
      }
      if token.recipients == [] {
        return None, true;
      }
      var stored := oldToken.(recipients := oldToken.recipients + token.recipients,
                              numRecipients := oldToken.numRecipients + |token.recipients|);
      tokens := tokens[TokenId(token.id) := stored];
      var lastRecipient := token.recipients[|token.recipients| - 1].publicKey;
      var lastProof := token.recipients[|token.recipients| - 1].proof;
      var compacted := SignByVerifier(token, lastProof, lastRecipient);
      AcceptanceAppends(old(tokens), token);
      reply := Some(compacted);
    }

    /**
     * `onEvaComplete`: reconciles a submitted batch token by token, then sends the peer the
     * compacted tokens, unless an exception ended the batch, in which case nothing is sent
     * but the ledger keeps the updates made before it.
     */
    method OnEvaComplete(peer: Peer, received: seq<ChainToken>)
      requires Valid()
      modifies this
      ensures Valid()
      ensures tokens == Process(old(tokens), received).ledger
      ensures outbox == old(outbox) +
        if Process(old(tokens), received).aborted then [] else [Reply(peer, Process(old(tokens), received).replies)]
    {
      var verifiedTokens: seq<ChainToken> := [];
      var i := 0;
      while i < |received|
        invariant 0 <= i <= |received|
        invariant Valid() && outbox == old(outbox)
        invariant Process(old(tokens), received) == Prepend(verifiedTokens, Process(tokens, received[i..]))
      {
        var token := received[i];
        ghost var before := tokens;
        ghost var acc := verifiedTokens;
        assert received[i..][0] == token && received[i..][1..] == received[i + 1..];
        var reply, abort := Handle(token);
        if abort {
          AbortStops(acc, before, received[i..]);
          return;
        }
        if reply.Some? {
          verifiedTokens := verifiedTokens + [reply.value];
        }
        ProcessAdvances(acc, before, received[i..], tokens, reply);
        i := i + 1;
      }
      ProcessEnds(old(tokens), received, verifiedTokens, tokens, i);
      outbox := outbox + [Reply(peer, verifiedTokens)];
    }

    /** A token `Handle` skips or accepts moves the batch on by one, adding its reply if any. */
    lemma ProcessAdvances(acc: seq<ChainToken>, ledger: map<TokenId, ChainToken>, ts: seq<ChainToken>,
                          next: map<TokenId, ChainToken>, reply: Option<ChainToken>)
      requires ts != []
      requires match StepOn(ledger, ts[0])
        case Skipped(_) => next == ledger && reply == None
        case Aborted => false
        case Accepted(stored, r) => next == ledger[TokenId(ts[0].id) := stored] && reply == Some(r)
      ensures Prepend(acc, Process(ledger, ts)) ==
        Prepend(acc + (if reply.Some? then [reply.value] else []), Process(next, ts[1..]))
    {
      if reply.Some? {
        var rest := Process(next, ts[1..]);
        assert acc + ([reply.value] + rest.replies) == (acc + [reply.value]) + rest.replies;
      } else {
        assert acc + [] == acc;
      }
    }

    /** A token `Handle` aborts on ends the batch without a reply. */
    lemma AbortStops(acc: seq<ChainToken>, ledger: map<TokenId, ChainToken>, ts: seq<ChainToken>)
      requires ts != [] && StepOn(ledger, ts[0]).Aborted?
      ensures Prepend(acc, Process(ledger, ts)).aborted
    {
    }

    /** Once every token is handled the batch is the ledger reached and the replies gathered. */
    lemma ProcessEnds(start: map<TokenId, ChainToken>, received: seq<ChainToken>, acc: seq<ChainToken>,
                      ledger: map<TokenId, ChainToken>, i: nat)
      requires i == |received| && Process(start, received) == Prepend(acc, Process(ledger, received[i..]))
      ensures Process(start, received) == Batch(ledger, acc, false)
    {
      assert received[i..] == [];
      assert acc + [] == acc;
    }

    /**
     * `createAndSend`: mints one token per entry of `mints` (its random id and anchor), each
     * worth 1 and addressed to `receiver` through a verifier-signed first link, sends them
     * all, and keeps in the ledger each token without that link and with a count of zero.
     */
    method CreateAndSend(receiver: Peer, mints: seq<Mint>)
      requires Valid()
      modifies this
      ensures Valid()
      ensures var sent := seq(|mints|, i requires 0 <= i < |mints| => Minted(mints[i], receiver.publicKey));
        tokens == StoreAll(old(tokens), sent) && outbox == old(outbox) + [Reply(receiver, sent)]
    {
      var newTokens: seq<ChainToken> := [];
      for i := 0 to |mints|
        invariant tokens == old(tokens) && outbox == old(outbox)
        invariant newTokens == seq(i, j requires 0 <= j < i => Minted(mints[j], receiver.publicKey))
      {
        var token := ChainToken(mints[i].id, 1, myPublicKey, mints[i].genesisHash, [], 0);
        token := SignByVerifier(token, token.genesisHash, receiver.publicKey);
        // The stored object is the one sent; it is stripped below, after sending.
        newTokens := newTokens + [token];
      }

      outbox := outbox + [Reply(receiver, newTokens)];

      ghost var start := tokens;
      for i := 0 to |newTokens|
        invariant LedgerValid(tokens) && outbox == old(outbox) + [Reply(receiver, newTokens)]
        invariant StoreAll(start, newTokens) == StoreAll(tokens, newTokens[i..])
      {
        assert newTokens[i..][1..] == newTokens[i + 1..];
        tokens := tokens[TokenId(newTokens[i].id) := Stripped(newTokens[i])];
      }
      assert newTokens[|newTokens|..] == [];
    }

    /**
     * A freshly minted entry expects its first continuation from the anchor of the token sent
     * to the receiver, and that token's link verifies under the verifier's key.
     */
    lemma MintAnchorsAtGenesis(m: Mint, receiver: seq<byte>)
      requires Crypto.Sound(crypto) && myPublicKey == crypto.pub(myPrivateKey)
      ensures var sent := Minted(m, receiver);
        && ExpectedAnchor(Stripped(sent)) == Some(sent.genesisHash)
        && sent.genesisHash == m.genesisHash
        && crypto.verify(myPublicKey, sent.recipients[0].proof, CompactionMessage(sent, m.genesisHash, receiver))
    {
      SignByVerifierVerifies(ChainToken(m.id, 1, myPublicKey, m.genesisHash, [], 0), m.genesisHash, receiver);
    }

    /** After a mint, every minted id is in the ledger with a count of zero and its own anchor. */
    lemma {:induction false} StoreAllEntries(ledger: map<TokenId, ChainToken>, sent: seq<ChainToken>, k: TokenId)
      decreases |sent|
      ensures k in StoreAll(ledger, sent) <==> k in ledger || exists t <- sent :: k == TokenId(t.id)
      ensures (exists t <- sent :: k == TokenId(t.id)) ==>
        StoreAll(ledger, sent)[k].numRecipients == 0 && StoreAll(ledger, sent)[k].id == k.id
      ensures (forall t <- sent :: k != TokenId(t.id)) && k in ledger ==> StoreAll(ledger, sent)[k] == ledger[k]
    {
      if sent != [] {
        StoreAllEntries(ledger[TokenId(sent[0].id) := Stripped(sent[0])], sent[1..], k);
        assert forall t <- sent :: t == sent[0] || t in sent[1..];
        assert sent[0] in sent;
        assert forall t <- sent[1..] :: t in sent;
      }
    }
  }
}
