/**
 * What the client and verifier communities share (EuroCommunity.kt): the datagram
 * limits, the search for a peer to pay, and `send`, which cuts a token collection into
 * datagrams of at most six records. The UDP socket is a log of the datagrams sent.
 */
module EuroCommunity {
  import opened Bytes
  import opened Wrappers
  import opened Tokens

  const MaxPacketSize := 1500
  const MaxTokensPerPacket := (MaxPacketSize - PrefixSize) / TokenSize

  /** ClientCommunity.EURO_CLIENT_MESSAGE, the message id written after the community prefix. */
  const ClientMessage: byte := 7

  /** The community prefix IPv8 puts before the message id. */
  const CommunityPrefixSize := PrefixSize - 1

  datatype Address = Address(host: seq<byte>, port: nat)
  datatype Peer = Peer(publicKey: KeyBin, address: Address)
  datatype Datagram = Datagram(to: Address, payload: seq<byte>)

  /** The UDP socket: every datagram handed to it, in order. */
  class Socket {
    var sent: seq<Datagram>

    constructor ()
      ensures sent == []
    {
      sent := [];
    }

    method Send(d: Datagram)
      modifies this
      ensures sent == old(sent) + [d]
    {
      sent := sent + [d];
    }
  }

  /** At most (1500 - 23) / 221 = 6 records fit a datagram, and six of them do fit. */
  lemma MaxTokensPerPacketIsSix()
    ensures MaxTokensPerPacket == 6
    ensures PrefixSize + 6 * TokenSize <= MaxPacketSize
    ensures PrefixSize + (MaxTokensPerPacket + 1) * TokenSize > MaxPacketSize
  {
  }

  /** A peer `getFirstPeer` may pay: neither the verifier nor this node itself. */
  predicate Payable(p: Peer, verifierKey: seq<byte>, myKey: seq<byte>) {
    p.publicKey != verifierKey && p.publicKey != myKey
  }

  /** The index of the first payable peer, if any; `getFirstPeer`'s loop. */
  function FirstPayable(peers: seq<Peer>, verifierKey: seq<byte>, myKey: seq<byte>): (r: Option<nat>)
    ensures r.Some? ==> r.value < |peers| && Payable(peers[r.value], verifierKey, myKey)
    ensures r.Some? ==> forall j :: 0 <= j < r.value ==> !Payable(peers[j], verifierKey, myKey)
    ensures r.None? ==> forall j :: 0 <= j < |peers| ==> !Payable(peers[j], verifierKey, myKey)
  {
    if peers == [] then None
    else if Payable(peers[0], verifierKey, myKey) then Some(0)
    else match FirstPayable(peers[1..], verifierKey, myKey)
      case None => None
      case Some(i) => Some(i + 1)
  }

  /**
   * `getFirstPeer`: no peer when there are none; otherwise the first peer whose key is
   * neither the verifier's nor our own, or none if no peer qualifies.
   */
  function GetFirstPeer(peers: seq<Peer>, verifierKey: seq<byte>, myKey: seq<byte>): (r: Option<Peer>)
    ensures peers == [] ==> r.None?
    ensures r.None? <==> forall p <- peers :: !Payable(p, verifierKey, myKey)
    ensures r.Some? ==> exists i :: 0 <= i < |peers| && peers[i] == r.value && Payable(peers[i], verifierKey, myKey) &&
                          forall j :: 0 <= j < i ==> !Payable(peers[j], verifierKey, myKey)
  {
    if |peers| == 0 then None
    else match FirstPayable(peers, verifierKey, myKey)
      case None => None
      case Some(i) => Some(peers[i])
  }

  /** The first bytes of every datagram `send` builds: the community prefix and the message id. */
  function Header(prefix: seq<byte>): (h: seq<byte>)
    ensures |h| == |prefix| + 1 && h[..|prefix|] == prefix && h[|prefix|] == ClientMessage
  {
    prefix + [ClientMessage]
  }

  /** No two tokens share an id (the tokens are pairwise unequal under `Token.equals`). */
  predicate DistinctIds(ts: seq<Token>) {
    forall i, j :: 0 <= i < j < |ts| ==> ts[i].id != ts[j].id
  }

  /**
   * The collection `send` is handed: a `MutableList` (the `toMutableList()` of `sendToPeer`)
   * or a `MutableSet` (the client's `LinkedHashSet` pools). The two differ in `removeAll`.
   */
  datatype Collection = TokenList | TokenSet

  /**
   * Whether each round of `send` removes exactly the tokens it sent: always for a set, and
   * for a list when no two of its tokens share an id.
   */
  predicate Exact(kind: Collection, ts: seq<Token>) {
    kind == TokenSet || DistinctIds(ts)
  }

  /** The number of datagrams `send` uses for n tokens. */
  function PacketCount(n: nat): nat {
    (n + 5) / 6
  }

  /** How many tokens datagram j carries when n tokens are sent: `min(remaining, 6)`. */
  function ChunkSize(n: nat, j: nat): nat {
    if n <= 6 * j then 0 else Min(n - 6 * j, 6)
  }

  /** The tokens of datagram j: the next `ChunkSize` tokens in collection order. */
  function Chunk(ts: seq<Token>, j: nat): (c: seq<Token>)
    ensures |c| == ChunkSize(|ts|, j)
  {
    if |ts| <= 6 * j then [] else ts[6 * j..6 * j + ChunkSize(|ts|, j)]
  }

  /**
   * What `send(to, ts)` puts on the socket: `PacketCount` datagrams to `to`, datagram j
   * `23 + 221·ChunkSize` bytes long and opening with the header; when the removal is exact
   * (a set, or a list with distinct ids), datagram j is exactly the header followed by the
   * records of chunk j.
   */
  ghost predicate SentAsBatches(prefix: seq<byte>, to: Address, ts: seq<Token>, kind: Collection, out: seq<Datagram>)
    requires AllWellSized(ts)
  {
    && |out| == PacketCount(|ts|)
    && (forall j :: 0 <= j < |out| ==>
          out[j].to == to && |out[j].payload| == PrefixSize + TokenSize * ChunkSize(|ts|, j) &&
          out[j].payload[..PrefixSize] == Header(prefix))
    && (Exact(kind, ts) ==> forall j :: 0 <= j < |out| ==>
          AllWellSized(Chunk(ts, j)) && out[j].payload == Header(prefix) + Records(Chunk(ts, j)))
  }

  predicate IdIn(id: seq<byte>, ts: seq<Token>) {
    exists u <- ts :: u.id == id
  }

  /** `ArrayList.removeAll(taken)`: drops every token equal (same id) to one taken. */
  function RemoveAll(ts: seq<Token>, taken: seq<Token>): (r: seq<Token>)
    ensures |r| <= |ts|
    ensures forall t <- r :: t in ts && !IdIn(t.id, taken)
    ensures forall i :: 0 <= i < |ts| && !IdIn(ts[i].id, taken) ==> ts[i] in r
  {
    if ts == [] then []
    else
      var rest := RemoveAll(ts[1..], taken);
      assert forall i :: 1 <= i < |ts| ==> ts[i] == ts[1..][i - 1];
      (if IdIn(ts[0].id, taken) then [] else [ts[0]]) + rest
  }

  /** Removal keeps the order: it distributes over concatenation. */
  lemma {:induction false} RemoveAllAppend(a: seq<Token>, b: seq<Token>, taken: seq<Token>)
    ensures RemoveAll(a + b, taken) == RemoveAll(a, taken) + RemoveAll(b, taken)
  {
    if a != [] {
      var ab := a + b;
      assert ab[0] == a[0] && ab[1..] == a[1..] + b;
      RemoveAllAppend(a[1..], b, taken);
      var head := if IdIn(a[0].id, taken) then [] else [a[0]];
      assert RemoveAll(ab, taken) == head + (RemoveAll(a[1..], taken) + RemoveAll(b, taken));
      assert RemoveAll(a, taken) == head + RemoveAll(a[1..], taken);
    } else {
      assert a + b == b;
    }
  }

  /** Removal decides token by token: one token stays exactly when its id was not taken. */
  lemma RemoveAllSingle(t: Token, taken: seq<Token>)
    ensures RemoveAll([t], taken) == if IdIn(t.id, taken) then [] else [t]
  {
    assert [t][1..] == [];
  }

  /**
   * `tokens.removeAll(tokensInPacket)`, `taken` being the first tokens of `ts`. A list drops
   * every token equal to a taken one, that is with the same id (`RemoveAll`). A `LinkedHashSet`
   * looks each taken token up through `Token.hashCode`, which hashes the id array by identity,
   * so it drops just the taken tokens themselves; when they are all the set still holds it
   * drops everything by `equals`, which comes to the same. Either way the set loses its first
   * |taken| tokens.
   */
  function RemoveSent(kind: Collection, ts: seq<Token>, taken: seq<Token>): (r: seq<Token>)
    ensures |r| <= |ts| && forall t <- r :: t in ts
    ensures kind == TokenSet && |taken| <= |ts| ==> r == ts[|taken|..]
  {
    match kind
    case TokenList => RemoveAll(ts, taken)
    case TokenSet => ts[Min(|taken|, |ts|)..]
  }

  /** Removing the first k tokens' ids removes at least those k tokens. */
  lemma {:induction false} RemoveAllPrefixShrinks(ts: seq<Token>, k: nat)
    requires k <= |ts|
    ensures |RemoveAll(ts, ts[..k])| <= |ts| - k
  {
    if k > 0 {
      assert ts[1..][..k - 1] == ts[1..k];
      RemoveAllWiderShrinks(ts[1..], ts[1..k], ts[..k]);
      assert IdIn(ts[0].id, ts[..k]) by { assert ts[..k][0] == ts[0]; }
    }
  }

  /** Removal by a wider set of ids: the k-1 tokens taken from the front still all disappear. */
  lemma {:induction false} RemoveAllWiderShrinks(ts: seq<Token>, front: seq<Token>, taken: seq<Token>)
    requires |front| <= |ts| && front == ts[..|front|]
    requires forall u <- front :: IdIn(u.id, taken)
    ensures |RemoveAll(ts, taken)| <= |ts| - |front|
  {
    if ts != [] {
      if front != [] {
        assert front[0] == ts[0] && front[0] in front;
        RemoveAllWiderShrinks(ts[1..], front[1..], taken);
      } else {
        RemoveAllWiderShrinks(ts[1..], [], taken);
      }
    }
  }

  /** With distinct ids, removing the first k tokens' ids leaves exactly the rest. */
  lemma {:induction false} RemoveAllDistinctPrefix(ts: seq<Token>, k: nat)
    requires k <= |ts| && DistinctIds(ts)
    ensures RemoveAll(ts, ts[..k]) == ts[k..]
  {
    RemoveAllDistinctFrom(ts, ts[..k], k);
  }

  lemma {:induction false} RemoveAllDistinctFrom(ts: seq<Token>, taken: seq<Token>, k: nat)
    requires k <= |ts| && DistinctIds(ts)
    requires forall i :: 0 <= i < k ==> IdIn(ts[i].id, taken)
    requires forall i :: k <= i < |ts| ==> !IdIn(ts[i].id, taken)
    ensures RemoveAll(ts, taken) == ts[k..]
    decreases |ts|
  {
    if ts != [] {
      var tail := ts[1..];
      assert DistinctIds(tail) by {
        forall i, j | 0 <= i < j < |tail| ensures tail[i].id != tail[j].id {
          assert tail[i] == ts[i + 1] && tail[j] == ts[j + 1];
        }
      }
      if k > 0 {
        RemoveAllDistinctFrom(tail, taken, k - 1);
        assert tail[k - 1..] == ts[k..];
      } else {
        RemoveAllDistinctFrom(tail, taken, 0);
        assert [ts[0]] + tail == ts;
      }
    }
  }

  /** In the distinct case the first k tokens' ids are exactly the ones taken. */
  lemma DistinctPrefixIds(ts: seq<Token>, k: nat)
    requires k <= |ts| && DistinctIds(ts)
    ensures forall i :: 0 <= i < k ==> IdIn(ts[i].id, ts[..k])
    ensures forall i :: k <= i < |ts| ==> !IdIn(ts[i].id, ts[..k])
  {
    forall i | 0 <= i < k ensures IdIn(ts[i].id, ts[..k]) {
      assert ts[..k][i] == ts[i];
    }
    forall i | k <= i < |ts| ensures !IdIn(ts[i].id, ts[..k]) {
      forall u <- ts[..k] ensures u.id != ts[i].id {
        var m :| 0 <= m < k && ts[..k][m] == u;
        assert ts[m] == u;
      }
    }
  }

  /** `Iterable.take(n)` for n >= 0: the first n elements, or all of them if there are fewer. */
  function Take(ts: seq<Token>, n: nat): (r: seq<Token>)
    ensures |r| == Min(n, |ts|) && r == ts[..|r|]
  {
    ts[..Min(n, |ts|)]
  }

  /**
   * `send`: serialises `tokens` six at a time into one reused 1500-byte packet, sends the
   * first `23 + 221·sendAmount` bytes of it each time and removes the sent tokens from the
   * collection, which it returns empty. `kind` says whether the collection is a list or a set.
   */
  method Send(socket: Socket, prefix: seq<byte>, receiverAddress: Address, tokens: seq<Token>, kind: Collection)
    returns (remaining: seq<Token>)
    requires |prefix| == CommunityPrefixSize && AllWellSized(tokens)
    modifies socket
    ensures remaining == []
    ensures |socket.sent| >= |old(socket.sent)| && socket.sent[..|old(socket.sent)|] == old(socket.sent)
    ensures SentAsBatches(prefix, receiverAddress, tokens, kind, socket.sent[|old(socket.sent)|..])
  {
    MaxTokensPerPacketIsSix();
    var packet := new byte[MaxPacketSize];
    ArrayCopy(prefix, packet, 0);
    packet[|prefix|] := ClientMessage;
    assert packet[..PrefixSize] == Header(prefix);

    ghost var out: seq<Datagram> := [];
    remaining := tokens;
    var unsentAmount := |tokens|;
    SendingStarts(prefix, receiverAddress, tokens, kind);
    while unsentAmount > 0
      invariant packet.Length == MaxPacketSize && packet[..PrefixSize] == Header(prefix)
      invariant socket.sent == old(socket.sent) + out
      invariant Sending(prefix, receiverAddress, tokens, kind, remaining, unsentAmount, out)
      decreases unsentAmount
    {
      var sendAmount := Min(unsentAmount, MaxTokensPerPacket);
      var tokensInPacket := Take(remaining, sendAmount);
      TakeWellSized(prefix, receiverAddress, tokens, kind, remaining, unsentAmount, out, sendAmount);
      var d := SendPacket(socket, packet, prefix, receiverAddress, tokensInPacket, sendAmount);
      SendingStep(prefix, receiverAddress, tokens, kind, remaining, unsentAmount, out, d);
      out := out + [d];
      remaining := RemoveSent(kind, remaining, tokensInPacket);
      unsentAmount := unsentAmount - sendAmount;
    }
    SendingEnds(prefix, receiverAddress, tokens, kind, remaining, out);
    assert socket.sent[|old(socket.sent)|..] == out;
  }

  /**
   * The state of `send`'s loop: `unsent` tokens still to go, the datagrams so far in `out`,
   * and, when the removal is exact, `remaining` being exactly the tokens not yet sent.
   */
  ghost predicate Sending(prefix: seq<byte>, to: Address, ts: seq<Token>, kind: Collection, remaining: seq<Token>, unsent: int, out: seq<Datagram>)
    requires AllWellSized(ts)
  {
    && 0 <= unsent <= |ts| && |remaining| <= unsent && AllWellSized(remaining)
    && Progress(|ts|, unsent, |out|)
    && (Exact(kind, ts) ==> remaining == ts[|ts| - unsent..])
    && SentSoFar(prefix, to, ts, kind, out)
  }

  lemma SendingStarts(prefix: seq<byte>, to: Address, ts: seq<Token>, kind: Collection)
    requires AllWellSized(ts)
    ensures Sending(prefix, to, ts, kind, ts, |ts|, [])
  {
    assert ts[|ts| - |ts|..] == ts;
  }

  lemma TakeWellSized(prefix: seq<byte>, to: Address, ts: seq<Token>, kind: Collection, remaining: seq<Token>, unsent: int, out: seq<Datagram>, k: nat)
    requires AllWellSized(ts) && Sending(prefix, to, ts, kind, remaining, unsent, out)
    ensures AllWellSized(Take(remaining, k))
  {
    forall t <- Take(remaining, k) ensures WellSized(t) { assert t in remaining; }
  }

  /** One round of the loop keeps `Sending`, with one more datagram and the taken tokens removed. */
  lemma SendingStep(prefix: seq<byte>, to: Address, ts: seq<Token>, kind: Collection, remaining: seq<Token>, unsent: int, out: seq<Datagram>, d: Datagram)
    requires AllWellSized(ts) && Sending(prefix, to, ts, kind, remaining, unsent, out) && unsent > 0
    requires var k := Min(unsent, MaxTokensPerPacket);
      d.to == to && |d.payload| == PrefixSize + TokenSize * k && d.payload[..PrefixSize] == Header(prefix) &&
      (|Take(remaining, k)| == k ==> AllWellSized(Take(remaining, k)) && d.payload == Header(prefix) + Records(Take(remaining, k)))
    ensures var k := Min(unsent, MaxTokensPerPacket);
      Sending(prefix, to, ts, kind, RemoveSent(kind, remaining, Take(remaining, k)), unsent - k, out + [d])
  {
    var n := |ts|;
    var k := Min(unsent, MaxTokensPerPacket);
    var taken := Take(remaining, k);
    ProgressStep(n, unsent, |out|);
    if Exact(kind, ts) {
      ExactRound(ts, kind, remaining, unsent, |out|);
    }
    SentRound(prefix, to, ts, kind, out, d, taken);
    RemainingRound(kind, remaining, unsent, k);
  }

  /** With exact removal the round takes exactly chunk p and leaves the tokens after it. */
  lemma ExactRound(ts: seq<Token>, kind: Collection, remaining: seq<Token>, unsent: int, p: nat)
    requires Exact(kind, ts) && 0 < unsent <= |ts| && remaining == ts[|ts| - unsent..] && Progress(|ts|, unsent, p)
    ensures var k := Min(unsent, MaxTokensPerPacket);
      Take(remaining, k) == Chunk(ts, p) && RemoveSent(kind, remaining, Take(remaining, k)) == ts[|ts| - (unsent - k)..]
  {
    if kind == TokenSet {
      SetRound(ts, remaining, unsent, p);
    } else {
      DistinctRound(ts, remaining, unsent, p);
    }
  }

  /** From a set the round takes chunk p and leaves exactly the tokens after it. */
  lemma SetRound(ts: seq<Token>, remaining: seq<Token>, unsent: int, p: nat)
    requires 0 < unsent <= |ts| && remaining == ts[|ts| - unsent..] && Progress(|ts|, unsent, p)
    ensures var k := Min(unsent, MaxTokensPerPacket);
      Take(remaining, k) == Chunk(ts, p) && RemoveSent(TokenSet, remaining, Take(remaining, k)) == ts[|ts| - (unsent - k)..]
  {
    var n := |ts|;
    var k := Min(unsent, MaxTokensPerPacket);
    ProgressStep(n, unsent, p);
    var sent := n - unsent;
    assert sent == 6 * p && k == ChunkSize(n, p) && unsent - k == n - (sent + k);
    ChunkOfDistinct(ts, remaining, sent, p, k);
    assert remaining[k..] == ts[sent + k..];
  }

  /** From a list with distinct ids the round takes chunk p and leaves exactly the tokens after it. */
  lemma DistinctRound(ts: seq<Token>, remaining: seq<Token>, unsent: int, p: nat)
    requires DistinctIds(ts) && 0 < unsent <= |ts| && remaining == ts[|ts| - unsent..] && Progress(|ts|, unsent, p)
    ensures var k := Min(unsent, MaxTokensPerPacket);
      Take(remaining, k) == Chunk(ts, p) && RemoveAll(remaining, Take(remaining, k)) == ts[|ts| - (unsent - k)..]
  {
    var n := |ts|;
    var k := Min(unsent, MaxTokensPerPacket);
    ProgressStep(n, unsent, p);
    var sent := n - unsent;
    assert sent == 6 * p && k == ChunkSize(n, p) && unsent - k == n - (sent + k);
    ChunkOfDistinct(ts, remaining, sent, p, k);
    DistinctStep(ts, remaining, sent, k);
  }

  /** The datagram of the round is the one `SentChunk` describes for position |out|. */
  lemma SentRound(prefix: seq<byte>, to: Address, ts: seq<Token>, kind: Collection, out: seq<Datagram>, d: Datagram, taken: seq<Token>)
    requires AllWellSized(ts) && SentSoFar(prefix, to, ts, kind, out)
    requires d.to == to && |d.payload| == PrefixSize + TokenSize * ChunkSize(|ts|, |out|) && d.payload[..PrefixSize] == Header(prefix)
    requires Exact(kind, ts) ==> taken == Chunk(ts, |out|)
    requires |taken| == ChunkSize(|ts|, |out|) ==> AllWellSized(taken) && d.payload == Header(prefix) + Records(taken)
    ensures SentSoFar(prefix, to, ts, kind, out + [d])
  {
    assert SentChunk(prefix, to, ts, kind, |out|, d);
    ExtendSent(prefix, to, ts, kind, out, d);
  }

  /** Removing the k tokens taken leaves well-sized tokens, at most `unsent - k` of them. */
  lemma RemainingRound(kind: Collection, remaining: seq<Token>, unsent: int, k: nat)
    requires AllWellSized(remaining) && |remaining| <= unsent && k <= unsent
    ensures var rest := RemoveSent(kind, remaining, Take(remaining, k));
      AllWellSized(rest) && |rest| <= unsent - k
  {
    var taken := Take(remaining, k);
    if kind == TokenList {
      RemoveAllPrefixShrinks(remaining, |taken|);
    }
    var rest := RemoveSent(kind, remaining, taken);
    forall t <- rest ensures WellSized(t) { assert t in remaining; }
  }

  lemma SendingEnds(prefix: seq<byte>, to: Address, ts: seq<Token>, kind: Collection, remaining: seq<Token>, out: seq<Datagram>)
    requires AllWellSized(ts) && Sending(prefix, to, ts, kind, remaining, 0, out)
    ensures SentAsBatches(prefix, to, ts, kind, out)
  {
    MaxTokensPerPacketIsSix();
    PacketCountIs(|ts|, |out|);
    SentSoFarComplete(prefix, to, ts, kind, out);
  }

  lemma SentSoFarComplete(prefix: seq<byte>, to: Address, ts: seq<Token>, kind: Collection, out: seq<Datagram>)
    requires AllWellSized(ts) && SentSoFar(prefix, to, ts, kind, out) && |out| == PacketCount(|ts|)
    ensures SentAsBatches(prefix, to, ts, kind, out)
  {
    forall j | 0 <= j < |out|
      ensures out[j].to == to && |out[j].payload| == PrefixSize + TokenSize * ChunkSize(|ts|, j)
      ensures out[j].payload[..PrefixSize] == Header(prefix)
    {
      assert SentChunk(prefix, to, ts, kind, j, out[j]);
    }
    if Exact(kind, ts) {
      forall j | 0 <= j < |out|
        ensures AllWellSized(Chunk(ts, j)) && out[j].payload == Header(prefix) + Records(Chunk(ts, j))
      {
        assert SentChunk(prefix, to, ts, kind, j, out[j]);
      }
    }
  }

  /** Every datagram sent so far is the one `send` owes for its position. */
  ghost predicate SentSoFar(prefix: seq<byte>, to: Address, ts: seq<Token>, kind: Collection, out: seq<Datagram>)
    requires AllWellSized(ts)
  {
    forall j :: 0 <= j < |out| ==> SentChunk(prefix, to, ts, kind, j, out[j])
  }

  /** Appending datagram p keeps every datagram of the send described by `SentChunk`. */
  lemma ExtendSent(prefix: seq<byte>, to: Address, ts: seq<Token>, kind: Collection, out: seq<Datagram>, d: Datagram)
    requires AllWellSized(ts) && SentSoFar(prefix, to, ts, kind, out) && SentChunk(prefix, to, ts, kind, |out|, d)
    ensures SentSoFar(prefix, to, ts, kind, out + [d])
  {
    ExtendEvery((j: nat, x: Datagram) => SentChunk(prefix, to, ts, kind, j, x), out, d);
  }

  /** A property of every (position, datagram) pair survives appending a datagram that has it. */
  lemma ExtendEvery(p: (nat, Datagram) -> bool, out: seq<Datagram>, d: Datagram)
    requires forall j :: 0 <= j < |out| ==> p(j, out[j])
    requires p(|out|, d)
    ensures forall j :: 0 <= j < |out| + 1 ==> p(j, (out + [d])[j])
  {
    forall j | 0 <= j < |out| + 1 ensures p(j, (out + [d])[j]) {
      if j < |out| {
        assert (out + [d])[j] == out[j];
      }
    }
  }

  /** How far the send loop is after p datagrams with `unsent` tokens still to go. */
  ghost predicate Progress(n: nat, unsent: nat, p: nat) {
    && n - unsent == Min(6 * p, n)
    && (unsent > 0 ==> n - unsent == 6 * p)
    && (p > 0 ==> 6 * (p - 1) < n)
  }

  lemma ProgressStep(n: nat, unsent: nat, p: nat)
    requires 0 < unsent <= n && Progress(n, unsent, p)
    ensures ChunkSize(n, p) == Min(unsent, MaxTokensPerPacket)
    ensures Progress(n, unsent - Min(unsent, MaxTokensPerPacket), p + 1)
  {
    MaxTokensPerPacketIsSix();
  }

  /** With distinct ids, removing what was taken leaves the tokens not yet sent. */
  lemma DistinctStep(ts: seq<Token>, remaining: seq<Token>, sent: nat, k: nat)
    requires DistinctIds(ts) && sent <= |ts| && remaining == ts[sent..] && k <= |remaining|
    ensures RemoveAll(remaining, Take(remaining, k)) == ts[sent + k..]
  {
    DistinctSuffix(ts, sent);
    RemoveAllDistinctPrefix(remaining, k);
    assert remaining[k..] == ts[sent + k..];
  }

  /** With distinct ids, the tokens the loop takes for datagram p are chunk p. */
  lemma ChunkOfDistinct(ts: seq<Token>, remaining: seq<Token>, sent: nat, p: nat, k: nat)
    requires sent <= |ts| && remaining == ts[sent..] && k <= |remaining|
    requires sent == 6 * p && k == ChunkSize(|ts|, p)
    ensures Take(remaining, k) == Chunk(ts, p)
  {
  }

  /** One round of the loop: serialise the chunk into the packet and send its first `23 + 221·sendAmount` bytes. */
  method SendPacket(socket: Socket, packet: array<byte>, prefix: seq<byte>, to: Address, chunk: seq<Token>, sendAmount: nat)
    returns (d: Datagram)
    requires packet.Length == MaxPacketSize && |prefix| == CommunityPrefixSize && packet[..PrefixSize] == Header(prefix)
    requires AllWellSized(chunk) && |chunk| <= sendAmount <= MaxTokensPerPacket
    modifies socket, packet
    ensures packet[..PrefixSize] == Header(prefix)
    ensures socket.sent == old(socket.sent) + [d]
    ensures d.to == to && |d.payload| == PrefixSize + TokenSize * sendAmount && d.payload[..PrefixSize] == Header(prefix) &&
      (|chunk| == sendAmount ==> d.payload == Header(prefix) + Records(chunk))
  {
    MaxTokensPerPacketIsSix();
    Serialize(chunk, packet);
    d := Datagram(to, packet[..PrefixSize + sendAmount * TokenSize]);
    assert d.payload[..PrefixSize] == packet[..PrefixSize];
    socket.Send(d);
  }

  /** Datagram j of a `send` of `ts`: its address, length and header, and with exact removal its records. */
  ghost predicate SentChunk(prefix: seq<byte>, to: Address, ts: seq<Token>, kind: Collection, j: nat, d: Datagram) {
    && d.to == to && |d.payload| == PrefixSize + TokenSize * ChunkSize(|ts|, j)
    && d.payload[..PrefixSize] == Header(prefix)
    && (Exact(kind, ts) ==> AllWellSized(Chunk(ts, j)) && d.payload == Header(prefix) + Records(Chunk(ts, j)))
  }

  lemma DistinctSuffix(ts: seq<Token>, k: nat)
    requires k <= |ts| && DistinctIds(ts)
    ensures DistinctIds(ts[k..])
  {
    var s := ts[k..];
    forall i, j | 0 <= i < j < |s| ensures s[i].id != s[j].id {
      assert s[i] == ts[k + i] && s[j] == ts[k + j];
    }
  }

  /** The loop's datagram count is `PacketCount`: p datagrams cover n tokens exactly when 6(p-1) < n <= 6p. */
  lemma PacketCountIs(n: nat, p: nat)
    requires MaxTokensPerPacket == 6
    requires n == Min(6 * p, n) && (p > 0 ==> 6 * (p - 1) < n)
    ensures p == PacketCount(n)
  {
  }

  /** Every datagram of a send is `23 + 221·k` bytes with k <= 6, so never above 1500 bytes. */
  lemma PacketFitsDatagram(n: nat, j: nat)
    ensures ChunkSize(n, j) <= MaxTokensPerPacket
    ensures PrefixSize + TokenSize * ChunkSize(n, j) <= MaxPacketSize
  {
    MaxTokensPerPacketIsSix();
  }

  /** The first p chunks, one after the other. */
  function Chunks(ts: seq<Token>, p: nat): seq<Token> {
    if p == 0 then [] else Chunks(ts, p - 1) + Chunk(ts, p - 1)
  }

  /** Chunk j is the slice between the j-th and the (j+1)-th multiple of six, both capped at n. */
  lemma ChunkIsSlice(ts: seq<Token>, j: nat)
    ensures Min(6 * j, |ts|) <= Min(6 * (j + 1), |ts|)
    ensures Chunk(ts, j) == ts[Min(6 * j, |ts|)..Min(6 * (j + 1), |ts|)]
  {
    MaxTokensPerPacketIsSix();
    assert 6 * (j + 1) == 6 * j + 6;
  }

  lemma AdjacentSlices(ts: seq<Token>, lo: nat, hi: nat)
    requires lo <= hi <= |ts|
    ensures ts[..lo] + ts[lo..hi] == ts[..hi]
  {
  }

  /** The first p chunks are the first `min(6p, n)` tokens, in collection order. */
  lemma {:induction false} ChunksArePrefix(ts: seq<Token>, p: nat)
    ensures Chunks(ts, p) == ts[..Min(6 * p, |ts|)]
  {
    if p > 0 {
      ChunksArePrefix(ts, p - 1);
      ChunkIsSlice(ts, p - 1);
      AdjacentSlices(ts, Min(6 * (p - 1), |ts|), Min(6 * p, |ts|));
    }
  }

  /**
   * The datagrams of a send cover the collection exactly: their tokens, in datagram
   * order, are the whole collection in iteration order.
   */
  lemma ChunksCoverAll(ts: seq<Token>)
    ensures Chunks(ts, PacketCount(|ts|)) == ts
  {
    MaxTokensPerPacketIsSix();
    ChunksArePrefix(ts, PacketCount(|ts|));
    assert Min(6 * PacketCount(|ts|), |ts|) == |ts|;
  }

  /** With distinct ids no token is in two datagrams: chunks i != j share no id. */
  lemma ChunksShareNoId(ts: seq<Token>, i: nat, j: nat, a: nat, b: nat)
    requires DistinctIds(ts) && i != j
    requires a < |Chunk(ts, i)| && b < |Chunk(ts, j)|
    ensures Chunk(ts, i)[a].id != Chunk(ts, j)[b].id
  {
    MaxTokensPerPacketIsSix();
    assert Chunk(ts, i)[a] == ts[6 * i + a];
    assert Chunk(ts, j)[b] == ts[6 * j + b];
  }

  /** Receiving any datagram of a send with exact removal deserializes to exactly its chunk. */
  lemma SentDecodes(prefix: seq<byte>, to: Address, ts: seq<Token>, kind: Collection, out: seq<Datagram>, j: nat)
    requires |prefix| == CommunityPrefixSize && AllWellSized(ts) && Exact(kind, ts)
    requires SentAsBatches(prefix, to, ts, kind, out) && j < |out|
    ensures Decoded(out[j].payload) == Chunk(ts, j)
  {
    RoundTrip(Header(prefix), Chunk(ts, j));
  }
}
