/**
 * The UDP throughput benchmark of measurements/PerformanceMode: a "token" is just a
 * `Long`, and a client's balance is a set of them in insertion order. `send` packs tokens
 * into 1492-byte packets: a 2-byte count, then that many 8-byte tokens, taken from the
 * front of the set and removed from it. `receive` reads a packet back into the set.
 * The buffers use the platform's byte order; the model fixes little-endian.
 */
module PerformanceMode {
  import opened Bytes
  import Tokens

  const UdpMaxPacketSize := 1492
  const CountSize := 2
  const LongSize := 8
  /** How many tokens fit in one packet after the count. */
  const MaxTokenSendAmount := (UdpMaxPacketSize - CountSize) / LongSize

  /** 186 tokens per packet, and a full packet of 1490 bytes fits the buffer. */
  lemma MaxTokenSendAmountIs186()
    ensures MaxTokenSendAmount == 186
    ensures CountSize + 8 * MaxTokenSendAmount == 1490 <= UdpMaxPacketSize
  {
  }

  // ---------------------------------------------------------------------------------
  // Little-endian two's-complement words, as `putShort`/`putLong` and
  // `getShort`/`getLong` lay them out.

  function Pow256(n: nat): (p: nat)
    ensures p >= 1
  {
    if n == 0 then 1 else 256 * Pow256(n - 1)
  }

  /** The low `n` bytes of `u`, least significant first. */
  function LeBytes(u: nat, n: nat): (r: seq<byte>)
    ensures |r| == n
  {
    if n == 0 then [] else [(u % 256) as byte] + LeBytes(u / 256, n - 1)
  }

  /** The unsigned value of a little-endian byte string. */
  function LeValue(bs: seq<byte>): (v: nat)
    ensures v < Pow256(|bs|)
  {
    if bs == [] then 0 else bs[0] as nat + 256 * LeValue(bs[1..])
  }

  lemma {:induction false} LeRoundTrip(u: nat, n: nat)
    requires u < Pow256(n)
    ensures LeValue(LeBytes(u, n)) == u
  {
    if n > 0 {
      LeRoundTrip(u / 256, n - 1);
      assert LeBytes(u, n)[1..] == LeBytes(u / 256, n - 1);
    }
  }

  lemma Pow256Values()
    ensures Pow256(2) == 0x1_0000 && Pow256(8) == 0x1_0000_0000_0000_0000
  {
    assert Pow256(1) == 0x100;
    assert Pow256(2) == 0x1_0000;
    assert Pow256(4) == 0x1_0000_0000 by { assert Pow256(3) == 0x100_0000; }
    assert Pow256(6) == 0x1_0000_0000_0000 by { assert Pow256(5) == 0x100_0000_0000; }
    assert Pow256(8) == 0x1_0000_0000_0000_0000 by { assert Pow256(7) == 0x100_0000_0000_0000; }
  }

  /** A Kotlin `Short`. */
  type Short = x: int | -0x8000 <= x < 0x8000

  function EncodeShort(x: Short): (r: seq<byte>)
    ensures |r| == CountSize
  {
    Pow256Values();
    LeBytes(if x < 0 then x + 0x1_0000 else x, CountSize)
  }

  function DecodeShort(bs: seq<byte>): Short
    requires |bs| == CountSize
  {
    Pow256Values();
    var u := LeValue(bs);
    if u >= 0x8000 then u - 0x1_0000 else u
  }

  function EncodeLong(x: Long): (r: seq<byte>)
    ensures |r| == LongSize
  {
    Pow256Values();
    LeBytes(if x < 0 then x + 0x1_0000_0000_0000_0000 else x, LongSize)
  }

  function DecodeLong(bs: seq<byte>): Long
    requires |bs| == LongSize
  {
    Pow256Values();
    var u := LeValue(bs);
    if u >= 0x8000_0000_0000_0000 then u - 0x1_0000_0000_0000_0000 else u
  }

  lemma ShortRoundTrip(x: Short)
    ensures DecodeShort(EncodeShort(x)) == x
  {
    Pow256Values();
    LeRoundTrip(if x < 0 then x + 0x1_0000 else x, CountSize);
  }

  lemma LongRoundTrip(x: Long)
    ensures DecodeLong(EncodeLong(x)) == x
  {
    Pow256Values();
    LeRoundTrip(if x < 0 then x + 0x1_0000_0000_0000_0000 else x, LongSize);
  }

  /** The tokens as `putLong` writes them one after another. */
  function EncodeLongs(xs: seq<Long>): (r: seq<byte>)
    ensures |r| == 8 * |xs|
  {
    if xs == [] then [] else EncodeLongs(xs[..|xs| - 1]) + EncodeLong(xs[|xs| - 1])
  }

  /** The `k`-th token of a packet body: the Long at byte offset `2 + 8k`. */
  function LongAt(buffer: seq<byte>, k: nat): Long
    requires CountSize + 8 * (k + 1) <= |buffer|
  {
    DecodeLong(buffer[CountSize + 8 * k..CountSize + 8 * (k + 1)])
  }

  /** The first `n` tokens of a packet body, as `getLong` reads them in turn. */
  function ReadLongs(buffer: seq<byte>, n: nat): (r: seq<Long>)
    requires CountSize + 8 * n <= |buffer|
    ensures |r| == n
  {
    seq(n, k requires 0 <= k < n => LongAt(buffer, k))
  }

  /** Where each token's bytes sit in `EncodeLongs`. */
  lemma {:induction false} EncodeLongsAt(xs: seq<Long>, k: nat)
    requires k < |xs|
    ensures EncodeLongs(xs)[8 * k..8 * (k + 1)] == EncodeLong(xs[k])
  {
    var front := xs[..|xs| - 1];
    if k < |xs| - 1 {
      EncodeLongsAt(front, k);
      assert front[k] == xs[k];
      assert EncodeLongs(xs)[..8 * |front|] == EncodeLongs(front);
    } else {
      assert EncodeLongs(xs)[8 * |front|..] == EncodeLong(xs[k]);
    }
  }

  /** A packet as `send` fills it: `chunk`'s count, then its tokens; what follows is left as it was. */
  predicate PacketHolds(p: seq<byte>, chunk: seq<Long>) {
    && |p| == UdpMaxPacketSize && |chunk| <= MaxTokenSendAmount
    && p[..CountSize + 8 * |chunk|] == EncodeShort(|chunk|) + EncodeLongs(chunk)
  }

  /** The count a received packet announces (`receiveBuffer.short`). */
  function ReceiveAmount(buffer: seq<byte>): Short
    requires |buffer| >= CountSize
  {
    DecodeShort(buffer[..CountSize])
  }

  /** How many tokens `receive` adds before it stops: none for a count <= 0, at most the 186 the buffer holds. */
  function Readable(count: int): (n: nat)
    ensures n <= MaxTokenSendAmount
  {
    if count <= 0 then 0 else Min(count, MaxTokenSendAmount)
  }

  /** The bytes of the `k`-th Long of a packet that starts with a count and a run of Longs. */
  lemma LongInPacket(p: seq<byte>, count: seq<byte>, longs: seq<byte>, k: nat)
    requires |count| == CountSize && 8 * (k + 1) <= |longs| && CountSize + |longs| <= |p|
    requires p[..CountSize + |longs|] == count + longs
    ensures p[CountSize + 8 * k..CountSize + 8 * (k + 1)] == longs[8 * k..8 * (k + 1)]
  {
    var lo, hi := CountSize + 8 * k, CountSize + 8 * (k + 1);
    forall i | lo <= i < hi ensures p[i] == longs[i - CountSize] {
      assert p[i] == p[..CountSize + |longs|][i] == (count + longs)[i];
    }
  }

  /** A packet written by `send` reads back as exactly the tokens written, in order. */
  lemma PacketRoundTrip(p: seq<byte>, chunk: seq<Long>)
    requires PacketHolds(p, chunk)
    ensures ReceiveAmount(p) == |chunk| && Readable(ReceiveAmount(p)) == |chunk|
    ensures ReadLongs(p, |chunk|) == chunk
  {
    var count, longs := EncodeShort(|chunk|), EncodeLongs(chunk);
    var body := p[..CountSize + 8 * |chunk|];
    assert body == count + longs;
    assert p[..CountSize] == body[..CountSize] == count;
    ShortRoundTrip(|chunk|);
    forall k | 0 <= k < |chunk| ensures LongAt(p, k) == chunk[k] {
      LongInPacket(p, count, longs, k);
      EncodeLongsAt(chunk, k);
      LongRoundTrip(chunk[k]);
    }
  }

  // ---------------------------------------------------------------------------------
  // The token set: a LinkedHashSet, iterated in insertion order.

  predicate Distinct(s: seq<Long>) {
    forall i, j :: 0 <= i < j < |s| ==> s[i] != s[j]
  }

  /** `tokens.add` for each of `xs` in turn: appended unless already present. */
  function AddAll(ts: seq<Long>, xs: seq<Long>): (r: seq<Long>)
  {
    if xs == [] then ts
    else
      var front := AddAll(ts, xs[..|xs| - 1]);
      if xs[|xs| - 1] in front then front else front + [xs[|xs| - 1]]
  }

  /** Adding keeps the set a set: the result holds each old and each added token exactly once. */
  lemma {:induction false} AddAllIsUnion(ts: seq<Long>, xs: seq<Long>)
    requires Distinct(ts)
    ensures Distinct(AddAll(ts, xs))
    ensures forall x :: x in AddAll(ts, xs) <==> x in ts || x in xs
    ensures |ts| <= |AddAll(ts, xs)| <= |ts| + |xs| && AddAll(ts, xs)[..|ts|] == ts
  {
    if xs != [] {
      var front := xs[..|xs| - 1];
      AddAllIsUnion(ts, front);
      assert xs == front + [xs[|xs| - 1]];
    }
  }

  /** Tokens none of which the set holds yet, and no two alike, are appended in order. */
  lemma {:induction false} AddAllFresh(ts: seq<Long>, xs: seq<Long>)
    requires Distinct(ts + xs)
    ensures AddAll(ts, xs) == ts + xs
  {
    if xs != [] {
      var front := xs[..|xs| - 1];
      assert ts + xs == (ts + front) + [xs[|xs| - 1]];
      assert Distinct(ts + front) by {
        forall i, j | 0 <= i < j < |ts + front| ensures (ts + front)[i] != (ts + front)[j] {
          assert (ts + front)[i] == (ts + xs)[i] && (ts + front)[j] == (ts + xs)[j];
        }
      }
      AddAllFresh(ts, front);
      assert xs[|xs| - 1] !in ts + front by {
        forall i | 0 <= i < |ts + front| ensures (ts + front)[i] != xs[|xs| - 1] {
          assert (ts + front)[i] == (ts + xs)[i] && xs[|xs| - 1] == (ts + xs)[|ts + xs| - 1];
        }
      }
    }
  }

  /** Adding two batches in turn adds their concatenation. */
  lemma {:induction false} AddAllAppend(ts: seq<Long>, xs: seq<Long>, ys: seq<Long>)
    ensures AddAll(AddAll(ts, xs), ys) == AddAll(ts, xs + ys)
  {
    if ys != [] {
      var front := ys[..|ys| - 1];
      AddAllAppend(ts, xs, front);
      assert (xs + ys)[..|xs + ys| - 1] == xs + front;
      assert (xs + ys)[|xs + ys| - 1] == ys[|ys| - 1];
    } else {
      assert xs + ys == xs;
    }
  }

  // ---------------------------------------------------------------------------------
  // `send`'s packets.

  /** How many packets `send` uses for `n` tokens. */
  function PacketCount(n: nat): nat {
    (n + 186 - 1) / 186
  }

  /** The tokens of packet `j` when `ts` are sent: the next 186, or what is left. */
  function PacketChunk(ts: seq<Long>, j: nat): (c: seq<Long>)
    ensures |c| <= MaxTokenSendAmount
  {
    var lo := 186 * j;
    if |ts| <= lo then [] else ts[lo..lo + Min(|ts| - lo, 186)]
  }

  /** Packet `j` of `out` holds chunk `j` of `ts`, and there is one packet per chunk. */
  ghost predicate SentAsPackets(ts: seq<Long>, out: seq<seq<byte>>) {
    |out| == PacketCount(|ts|) && PacketsSoFar(ts, out)
  }

  /** The chunks of the first `p` packets, in packet order. */
  function Chunks(ts: seq<Long>, p: nat): (cs: seq<seq<Long>>)
    ensures |cs| == p
  {
    seq(p, j requires 0 <= j < p => PacketChunk(ts, j))
  }

  /** Batches of tokens concatenated in order. */
  function Flatten(bs: seq<seq<Long>>): seq<Long> {
    if bs == [] then [] else Flatten(bs[..|bs| - 1]) + bs[|bs| - 1]
  }

  /** The first `p` chunks, concatenated, are the first `min(186p, n)` tokens. */
  lemma {:induction false} ChunksConcat(ts: seq<Long>, p: nat)
    requires p <= PacketCount(|ts|)
    ensures Flatten(Chunks(ts, p)) == ts[..Min(186 * p, |ts|)]
  {
    if p > 0 {
      ChunksConcat(ts, p - 1);
      assert Chunks(ts, p)[..p - 1] == Chunks(ts, p - 1);
    }
  }

  /** The tokens `receive` reads from one whole packet: as many Longs as its count allows. */
  function PacketTokens(packet: seq<byte>): (r: seq<Long>)
  {
    if |packet| != UdpMaxPacketSize then [] else ReadLongs(packet, Readable(ReceiveAmount(packet)))
  }

  /** What `receive` reads from each packet of `out`, packet by packet. */
  function PacketReads(out: seq<seq<byte>>): (bs: seq<seq<Long>>)
    ensures |bs| == |out|
  {
    seq(|out|, j requires 0 <= j < |out| => PacketTokens(out[j]))
  }

  /** `tokens.add` for each batch in turn. */
  function AddBatches(r: seq<Long>, bs: seq<seq<Long>>): seq<Long> {
    if bs == [] then r else AddAll(AddBatches(r, bs[..|bs| - 1]), bs[|bs| - 1])
  }

  /** Adding batch after batch adds their concatenation. */
  lemma {:induction false} AddBatchesFlat(r: seq<Long>, bs: seq<seq<Long>>)
    ensures AddBatches(r, bs) == AddAll(r, Flatten(bs))
  {
    if bs != [] {
      var front := bs[..|bs| - 1];
      AddBatchesFlat(r, front);
      AddAllAppend(r, Flatten(front), bs[|bs| - 1]);
    }
  }

  /** Each packet of a `send` reads back as its chunk. */
  lemma ReadsAreChunks(ts: seq<Long>, out: seq<seq<byte>>)
    requires PacketsSoFar(ts, out)
    ensures PacketReads(out) == Chunks(ts, |out|)
  {
    forall j | 0 <= j < |out| ensures PacketReads(out)[j] == Chunks(ts, |out|)[j] {
      PacketAt(ts, out, j);
      PacketRoundTrip(out[j], PacketChunk(ts, j));
    }
  }

  /**
   * Receiving all the packets of a `send` in order, each as `receive` reads one, adds exactly
   * the tokens sent, in the order sent; into a set holding none of them, they are appended.
   */
  lemma ReceiveAllPackets(r: seq<Long>, ts: seq<Long>, out: seq<seq<byte>>)
    requires SentAsPackets(ts, out)
    ensures AddBatches(r, PacketReads(out)) == AddAll(r, ts)
    ensures Distinct(r + ts) ==> AddBatches(r, PacketReads(out)) == r + ts
  {
    ReadsAreChunks(ts, out);
    AddBatchesFlat(r, PacketReads(out));
    assert 186 * PacketCount(|ts|) >= |ts|;
    ChunksConcat(ts, |out|);
    assert ts[..|ts|] == ts;
    if Distinct(r + ts) {
      AddAllFresh(r, ts);
    }
  }

  /** The packets of `out` hold the successive chunks of `all`, from the first on. */
  ghost predicate PacketsSoFar(all: seq<Long>, out: seq<seq<byte>>) {
    forall j :: 0 <= j < |out| ==> PacketHolds(out[j], PacketChunk(all, j))
  }

  lemma ExtendPackets(all: seq<Long>, out: seq<seq<byte>>, p: seq<byte>)
    requires PacketsSoFar(all, out) && PacketHolds(p, PacketChunk(all, |out|))
    ensures PacketsSoFar(all, out + [p])
  {
    var out' := out + [p];
    forall j | 0 <= j < |out'| ensures PacketHolds(out'[j], PacketChunk(all, j)) {
      if j < |out| {
        PacketAt(all, out, j);
        assert out'[j] == out[j];
      }
    }
  }

  lemma PacketAt(all: seq<Long>, out: seq<seq<byte>>, j: nat)
    requires PacketsSoFar(all, out) && j < |out|
    ensures PacketHolds(out[j], PacketChunk(all, j))
  {
  }

  /**
   * The bookkeeping of one pass of `send`'s loop: with `unsent` tokens left after `|out|`
   * full packets, the next packet takes the next `min(unsent, 186)` tokens, and the loop
   * ends exactly when one packet per chunk has gone out.
   */
  lemma SendStep(all: seq<Long>, out: nat, unsent: int, sendAmount: int)
    requires 0 < unsent <= |all| && |all| - unsent == 186 * out
    requires sendAmount == Min(unsent, MaxTokenSendAmount)
    ensures PacketChunk(all, out) == all[|all| - unsent..|all| - unsent + sendAmount]
    ensures unsent - sendAmount > 0 ==> |all| - (unsent - sendAmount) == 186 * (out + 1)
    ensures unsent - sendAmount == 0 ==> out + 1 == PacketCount(|all|)
  {
    var lo := 186 * out;
    assert |all| - lo == unsent;
    if unsent - sendAmount == 0 {
      assert unsent <= MaxTokenSendAmount;
      assert 186 * (out + 1) <= |all| + 186 - 1 < 186 * (out + 2);
    }
  }

  /**
   * Where `send`'s loop stands over the `all` tokens it is to send: a negative `amount`
   * never enters it; otherwise `|out|` full chunks have gone and `unsent` tokens remain,
   * and once none remain there is one packet per chunk.
   */
  ghost predicate SendingLongs(all: seq<Long>, amount: int, unsent: int, taken: nat, out: seq<seq<byte>>) {
    && unsent <= |all| && taken == (if unsent > 0 then |all| - unsent else |all|)
    && (unsent < 0 ==> unsent == amount && out == [])
    && (unsent > 0 ==> taken == 186 * |out|)
    && (unsent <= 0 ==> |out| == PacketCount(|all|))
    && PacketsSoFar(all, out)
  }

  /** One packet holding the next chunk keeps `SendingLongs`. */
  lemma SendRound(all: seq<Long>, amount: int, unsent: int, taken: nat, out: seq<seq<byte>>, p: seq<byte>)
    requires SendingLongs(all, amount, unsent, taken, out) && unsent > 0
    requires PacketHolds(p, PacketChunk(all, |out|))
    ensures var k := Min(unsent, MaxTokenSendAmount);
      SendingLongs(all, amount, unsent - k, taken + k, out + [p])
  {
    MaxTokenSendAmountIs186();
    SendStep(all, |out|, unsent, Min(unsent, MaxTokenSendAmount));
    ExtendPackets(all, out, p);
  }

  /** The loop's next packet holds the next `min(unsent, 186)` tokens of the set, which are chunk `|out|`. */
  lemma NextChunk(all: seq<Long>, start: seq<Long>, amount: int, unsent: int, taken: nat, out: seq<seq<byte>>)
    returns (chunk: seq<Long>)
    requires SendingLongs(all, amount, unsent, taken, out) && unsent > 0
    requires |all| <= |start| && all == start[..|all|]
    ensures var k := Min(unsent, MaxTokenSendAmount);
      0 < k <= MaxTokenSendAmount && taken + k <= |all| &&
      chunk == start[taken..][..k] && chunk == PacketChunk(all, |out|) && start[taken..][k..] == start[taken + k..]
  {
    MaxTokenSendAmountIs186();
    var k := Min(unsent, MaxTokenSendAmount);
    SendStep(all, |out|, unsent, k);
    NextTokens(start, |all|, taken, k);
    chunk := start[taken..][..k];
  }

  /** When the loop ends every token of `all` has gone, one packet per chunk. */
  lemma SendingDone(all: seq<Long>, amount: int, unsent: int, taken: nat, out: seq<seq<byte>>)
    requires SendingLongs(all, amount, unsent, taken, out) && unsent <= 0
    ensures taken == |all| && SentAsPackets(all, out)
  {
  }

  /** The `k` tokens after the first `taken` are the same whether read from the set or from its first `n`. */
  lemma NextTokens(start: seq<Long>, n: nat, taken: nat, k: nat)
    requires taken + k <= n <= |start|
    ensures start[taken..][..k] == start[..n][taken..taken + k]
    ensures start[taken..][k..] == start[taken + k..]
  {
  }

  /** Writing Long k after the first k leaves the first k + 1 in place. */
  lemma WriteNextLong(b0: seq<byte>, b1: seq<byte>, head: seq<byte>, xs: seq<Long>, k: nat)
    requires k < |xs| && |head| == CountSize && CountSize + 8 * (k + 1) <= |b0|
    requires b0[..CountSize + 8 * k] == head + EncodeLongs(xs[..k])
    requires b1 == b0[..CountSize + 8 * k] + EncodeLong(xs[k]) + b0[CountSize + 8 * k + 8..]
    ensures b1[..CountSize + 8 * (k + 1)] == head + EncodeLongs(xs[..k + 1])
  {
    assert xs[..k + 1][..k] == xs[..k];
    assert b1[..CountSize + 8 * (k + 1)] == b0[..CountSize + 8 * k] + EncodeLong(xs[k]);
  }

  lemma DistinctSuffix(ts: seq<Long>, k: nat)
    requires Distinct(ts) && k <= |ts|
    ensures Distinct(ts[k..])
  {
    var rest := ts[k..];
    forall i, j | 0 <= i < j < |rest| ensures rest[i] != rest[j] {
      assert rest[i] == ts[k + i] && rest[j] == ts[k + j];
    }
  }

  /**
   * The benchmark's global state: the token set, the send buffer (an array the packet
   * points into), and, standing in for the socket, the packets sent so far.
   */
  class Benchmark {
    /** `tokens`: distinct Longs in insertion order. */
    var tokens: seq<Long>
    const sendBuffer: array<byte>
    /** Every packet handed to `sendSocket.send`: the whole 1492-byte buffer each time. */
    var sent: seq<seq<byte>>

    ghost predicate Valid()
      reads this
    {
      sendBuffer.Length == UdpMaxPacketSize && Distinct(tokens)
    }

    /** `main`'s set-up: the generated Longs, duplicates dropped by `toMutableSet`. */
    constructor (generated: seq<Long>)
      ensures Valid() && fresh(sendBuffer)
      ensures tokens == AddAll([], generated) && sent == []
    {
      tokens := AddAll([], generated);
      AddAllIsUnion([], generated);
      sendBuffer := new byte[UdpMaxPacketSize];
      sent := [];
    }

    /**
     * One packet of `send`: the count at offset 0, then each of the first `sendAmount`
     * tokens at offsets 2, 10, ..., each removed from the set as it is written. Bytes past
     * the last token keep what an earlier packet left there.
     */
    method FillPacket(sendAmount: nat)
      requires Valid() && 0 < sendAmount <= MaxTokenSendAmount && sendAmount <= |tokens|
      modifies this, sendBuffer
      ensures Valid() && sent == old(sent)
      ensures tokens == old(tokens)[sendAmount..]
      ensures PacketHolds(sendBuffer[..], old(tokens)[..sendAmount])
    {
      Tokens.ArrayCopy(EncodeShort(sendAmount), sendBuffer, 0);
      for k := 0 to sendAmount
        invariant sent == old(sent) && sendBuffer.Length == UdpMaxPacketSize
        invariant tokens == old(tokens)[k..]
        invariant sendBuffer[..CountSize + 8 * k] == EncodeShort(sendAmount) + EncodeLongs(old(tokens)[..k])
      {
        var next := tokens[0];
        ghost var before := sendBuffer[..];
        Tokens.ArrayCopy(EncodeLong(next), sendBuffer, CountSize + 8 * k);
        WriteNextLong(before, sendBuffer[..], EncodeShort(sendAmount), old(tokens), k);
        tokens := tokens[1..];
      }
      DistinctSuffix(old(tokens), sendAmount);
    }

    /** One pass of `send`'s loop: fill the buffer with the next `sendAmount` tokens and send all of it. */
    method SendPacket(sendAmount: nat) returns (packet: seq<byte>)
      requires Valid() && 0 < sendAmount <= MaxTokenSendAmount && sendAmount <= |tokens|
      modifies this, sendBuffer
      ensures Valid() && tokens == old(tokens)[sendAmount..]
      ensures sent == old(sent) + [packet] && PacketHolds(packet, old(tokens)[..sendAmount])
    {
      FillPacket(sendAmount);
      packet := sendBuffer[..];
      sent := sent + [packet];
    }

    /**
     * `send`: with too small a balance nothing happens. Otherwise the first `amount` tokens
     * leave in packets of at most 186, packet `j` holding tokens `186j` onwards, and the
     * set loses exactly those tokens. A count of zero or less sends nothing.
     */
    method Send(amount: int) returns (done: bool)
      requires Valid()
      modifies this, sendBuffer
      ensures Valid()
      ensures done <==> amount <= |old(tokens)|
      ensures !done ==> tokens == old(tokens) && sent == old(sent)
      ensures done ==>
        var n := if amount < 0 then 0 else amount;
        && tokens == old(tokens)[n..] && |tokens| == |old(tokens)| - n
        && |sent| >= |old(sent)| && sent[..|old(sent)|] == old(sent)
        && SentAsPackets(old(tokens)[..n], sent[|old(sent)|..])
    {
      if |tokens| < amount {
        return false;
      }

      MaxTokenSendAmountIs186();
      var unsentAmount := amount;
      ghost var start := tokens;
      ghost var n := if amount < 0 then 0 else amount;
      ghost var all := start[..n];
      ghost var taken: nat := 0;
      ghost var out: seq<seq<byte>> := [];
      while unsentAmount > 0
        invariant Valid() && start == old(tokens) && n <= |start| && all == start[..n]
        invariant SendingLongs(all, amount, unsentAmount, taken, out)
        invariant tokens == start[taken..] && sent == old(sent) + out
      {
        var sendAmount := Min(unsentAmount, MaxTokenSendAmount);
        ghost var chunk := NextChunk(all, start, amount, unsentAmount, taken, out);
        assert chunk == tokens[..sendAmount];
        var packet := SendPacket(sendAmount);
        SendRound(all, amount, unsentAmount, taken, out, packet);
        out := out + [packet];
        taken := taken + sendAmount;
        unsentAmount := unsentAmount - sendAmount;
      }
      SendingDone(all, amount, unsentAmount, taken, out);
      assert sent[|old(sent)|..] == out;
      done := true;
    }

    /**
     * `receive`: reads the signed count, then adds that many Longs from offsets 2, 10, ...
     * to the set. A count above 186 runs past the buffer: `getLong` throws after the 186th
     * token has been added, which `ok == false` reports.
     */
    method Receive(buffer: seq<byte>) returns (ok: bool)
      requires Valid() && |buffer| == UdpMaxPacketSize
      modifies this
      ensures Valid() && sent == old(sent)
      ensures ok <==> ReceiveAmount(buffer) <= MaxTokenSendAmount
      ensures tokens == AddAll(old(tokens), PacketTokens(buffer))
    {
      var receiveAmount := DecodeShort(buffer[..CountSize]);
      var k := 0;
      while k < receiveAmount
        invariant 0 <= k <= Readable(receiveAmount)
        invariant sent == old(sent) && tokens == AddAll(old(tokens), ReadLongs(buffer, k))
      {
        if CountSize + 8 * (k + 1) > |buffer| {
          ReceiveStops(old(tokens), buffer, k);
          return false;
        }
        var token := DecodeLong(buffer[CountSize + 8 * k..CountSize + 8 * (k + 1)]);
        AddNextRead(old(tokens), buffer, k);
        if token !in tokens {
          tokens := tokens + [token];
        }
        k := k + 1;
      }
      ReceiveStops(old(tokens), buffer, k);
      ok := true;
    }
  }

  /** Reading one more Long of a packet adds it to the set unless the set already holds it. */
  lemma AddNextRead(ts: seq<Long>, buffer: seq<byte>, k: nat)
    requires CountSize + 8 * (k + 1) <= |buffer|
    ensures var before := AddAll(ts, ReadLongs(buffer, k));
      AddAll(ts, ReadLongs(buffer, k + 1)) ==
        if LongAt(buffer, k) in before then before else before + [LongAt(buffer, k)]
  {
    var xs := ReadLongs(buffer, k + 1);
    assert xs[..k] == ReadLongs(buffer, k);
  }

  /** Where `receive`'s loop stops, it has read exactly what `PacketTokens` describes. */
  lemma ReceiveStops(ts: seq<Long>, buffer: seq<byte>, k: nat)
    requires Distinct(ts) && |buffer| == UdpMaxPacketSize && k <= Readable(ReceiveAmount(buffer))
    requires k >= ReceiveAmount(buffer) || CountSize + 8 * (k + 1) > |buffer|
    ensures k == Readable(ReceiveAmount(buffer))
    ensures (k >= ReceiveAmount(buffer)) <==> ReceiveAmount(buffer) <= MaxTokenSendAmount
    ensures AddAll(ts, ReadLongs(buffer, k)) == AddAll(ts, PacketTokens(buffer))
    ensures Distinct(AddAll(ts, PacketTokens(buffer)))
  {
    MaxTokenSendAmountIs186();
    AddAllIsUnion(ts, PacketTokens(buffer));
  }
}
