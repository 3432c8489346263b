/**
 * The fixed-width token record of Token.kt: `id(8) ∥ value(1) ∥ sender(74) ∥
 * receiver(74) ∥ signature(64)`, written back to back after the IPv8 prefix of a
 * datagram, and the sender signature over `id ∥ value ∥ sender ∥ receiver`.
 */
module Tokens {
  import opened Bytes
  import Crypto

  const IdSize := 8
  const ValueSize := 1
  const SenderSize := 74
  const ReceiverSize := 74
  const SignatureSize := 64
  /** The record size: the five field sizes added up (see `TokenSizeIsFieldSum`). */
  const TokenSize := 221

  lemma TokenSizeIsFieldSum()
    ensures TokenSize == IdSize + ValueSize + SenderSize + ReceiverSize + SignatureSize
  {
  }

  /** EuroCommunity's EURO_IPV8_PREFIX_SIZE: the community prefix plus the message id byte. */
  const PrefixSize := 23

  datatype Token = Token(id: seq<byte>, value: byte, sender: seq<byte>, receiver: seq<byte>, signature: seq<byte>)

  /** Every field has the width the record gives it (serialize copies exactly that many bytes). */
  predicate WellSized(t: Token) {
    |t.id| == IdSize && |t.sender| == SenderSize && |t.receiver| == ReceiverSize && |t.signature| == SignatureSize
  }

  predicate AllWellSized(ts: seq<Token>) {
    forall t <- ts :: WellSized(t)
  }

  /** `Token.equals`: two tokens are the same token iff their ids have the same content. */
  predicate Equals(a: Token, b: Token) {
    a.id == b.id
  }

  /** The record of one token, in field order. */
  function Encode(t: Token): (r: seq<byte>)
    requires WellSized(t)
    ensures |r| == TokenSize
  {
    t.id + [t.value] + t.sender + t.receiver + t.signature
  }

  /** The records of a token collection, back to back, in collection order. */
  function Records(ts: seq<Token>): (r: seq<byte>)
    requires AllWellSized(ts)
    ensures |r| == TokenSize * |ts|
  {
    if ts == [] then [] else Records(ts[..|ts| - 1]) + Encode(ts[|ts| - 1])
  }

  /** The token whose record starts at offset `at`, read field by field. */
  function Parse(data: seq<byte>, at: nat): (t: Token)
    requires at + TokenSize <= |data|
    ensures WellSized(t)
  {
    Token(data[at..at + 8], data[at + 8], data[at + 9..at + 83], data[at + 83..at + 157], data[at + 157..at + 221])
  }

  /** The payload after the prefix is a whole number of records; a buffer shorter than the prefix never is. */
  predicate WholeRecords(size: nat) {
    KotlinRem(size - PrefixSize, TokenSize) == 0
  }

  lemma WholeRecordsBounds(size: nat)
    requires WholeRecords(size)
    ensures size >= PrefixSize
    ensures PrefixSize + TokenSize * ((size - PrefixSize) / TokenSize) == size
  {
  }

  /** The token count of a buffer that passes the size check. */
  function RecordCount(size: nat): (n: nat)
    requires WholeRecords(size)
    ensures PrefixSize + TokenSize * n == size
  {
    WholeRecordsBounds(size);
    (size - PrefixSize) / TokenSize
  }

  /** What `deserialize` returns for a buffer: the tokens of its records, or nothing if the size is off. */
  function Decoded(data: seq<byte>): (ts: seq<Token>)
    ensures !WholeRecords(|data|) ==> ts == []
    ensures WholeRecords(|data|) ==> |ts| == RecordCount(|data|)
    ensures AllWellSized(ts)
  {
    if !WholeRecords(|data|) then []
    else
      var n := RecordCount(|data|);
      seq(n, k requires 0 <= k < n => RecordBound(|data|, n, k); Parse(data, PrefixSize + TokenSize * k))
  }

  /** A prefix followed by n whole records passes the size check and holds n records. */
  lemma WholeRecordsOf(n: nat)
    ensures WholeRecords(PrefixSize + TokenSize * n) && RecordCount(PrefixSize + TokenSize * n) == n
  {
    var size := PrefixSize + TokenSize * n;
    assert size - PrefixSize == TokenSize * n;
    assert (TokenSize * n) % TokenSize == 0 && (TokenSize * n) / TokenSize == n;
  }

  lemma RecordBound(size: nat, n: nat, k: nat)
    requires PrefixSize + TokenSize * n == size
    requires k < n
    ensures PrefixSize + TokenSize * k + TokenSize <= size
  {
  }

  /** In `deserialize`, token k's fields are read from `23 + 221k` at offsets +0, +8, +9, +83 and +157. */
  lemma DecodedFieldOffsets(data: seq<byte>, k: nat)
    requires WholeRecords(|data|) && k < RecordCount(|data|)
    ensures var at := 23 + 221 * k;
      at + 221 <= |data| &&
      Decoded(data)[k] == Token(data[at..at + 8], data[at + 8], data[at + 9..at + 83], data[at + 83..at + 157], data[at + 157..at + 221])
  {
    RecordBound(|data|, RecordCount(|data|), k);
  }

  /** `deserialize` rejects every buffer shorter than the 23-byte prefix. */
  lemma ShortBufferDecodesEmpty(data: seq<byte>)
    requires |data| < PrefixSize
    ensures Decoded(data) == []
  {
    var short := PrefixSize - |data|;
    assert short % TokenSize == short;
    assert KotlinRem(|data| - PrefixSize, TokenSize) == -short;
  }

  /** Record k of `Records(ts)` is the encoding of token k. */
  lemma {:induction false} RecordsAt(ts: seq<Token>, k: nat)
    requires AllWellSized(ts) && k < |ts|
    ensures TokenSize * k + TokenSize <= |Records(ts)|
    ensures Records(ts)[TokenSize * k..TokenSize * k + TokenSize] == Encode(ts[k])
  {
    var n := |ts| - 1;
    var front := ts[..n];
    assert ts == front + [ts[n]];
    assert AllWellSized(front);
    if k < n {
      RecordsAt(front, k);
      assert Records(ts) == Records(front) + Encode(ts[n]);
    }
  }

  /** Parsing where a record was written gives back the token it encodes. */
  lemma ParseEncode(data: seq<byte>, at: nat, t: Token)
    requires WellSized(t)
    requires at + TokenSize <= |data| && data[at..at + TokenSize] == Encode(t)
    ensures Parse(data, at) == t
  {
    var e := Encode(t);
    var w := data[at..at + TokenSize];
    assert e[..8] == t.id && e[8] == t.value && e[9..83] == t.sender;
    assert e[83..157] == t.receiver && e[157..221] == t.signature;
    SubSlice(data, at, TokenSize, 0, 8);
    SubSlice(data, at, TokenSize, 9, 83);
    SubSlice(data, at, TokenSize, 83, 157);
    SubSlice(data, at, TokenSize, 157, 221);
    assert data[at + 8] == w[8];
  }

  lemma SubSlice(data: seq<byte>, at: nat, len: nat, a: nat, b: nat)
    requires at + len <= |data| && a <= b <= len
    ensures data[at..at + len][a..b] == data[at + a..at + b]
  {
    var w := data[at..at + len][a..b];
    forall i | 0 <= i < b - a ensures w[i] == data[at + a + i] {
      assert w[i] == data[at..at + len][a + i];
    }
  }

  /** The record at slot k of a buffer `prefix ∥ Records(ts)` parses back to token k. */
  lemma ParseRecordAt(prefix: seq<byte>, ts: seq<Token>, k: nat)
    requires |prefix| == PrefixSize && AllWellSized(ts) && k < |ts|
    ensures PrefixSize + TokenSize * k + TokenSize <= |prefix + Records(ts)|
    ensures Parse(prefix + Records(ts), PrefixSize + TokenSize * k) == ts[k]
  {
    var records := Records(ts);
    var data := prefix + records;
    RecordsAt(ts, k);
    var at := PrefixSize + TokenSize * k;
    assert data[at..at + TokenSize] == records[TokenSize * k..TokenSize * k + TokenSize];
    ParseEncode(data, at, ts[k]);
  }

  /**
   * Round trip: the first `23 + 221·n` bytes of a buffer that serialize filled with `ts`
   * (any 23-byte prefix, then the records) deserialize to `ts`, field for field, in order.
   */
  lemma RoundTrip(prefix: seq<byte>, ts: seq<Token>)
    requires |prefix| == PrefixSize && AllWellSized(ts)
    ensures Decoded(prefix + Records(ts)) == ts
  {
    var data := prefix + Records(ts);
    assert |data| == PrefixSize + TokenSize * |ts|;
    WholeRecordsOf(|ts|);
    var d := Decoded(data);
    assert |d| == |ts|;
    forall k | 0 <= k < |ts| ensures d[k] == ts[k] {
      DecodedAt(data, k);
      ParseRecordAt(prefix, ts, k);
    }
  }

  /** `System.arraycopy(src, 0, dst, at, src.size)`. */
  method ArrayCopy(src: seq<byte>, dst: array<byte>, at: nat)
    requires at + |src| <= dst.Length
    modifies dst
    ensures dst[..] == old(dst[..at]) + src + old(dst[at + |src|..])
  {
    for j := 0 to |src|
      invariant forall k | 0 <= k < dst.Length :: dst[k] == if at <= k < at + j then src[k - at] else old(dst[k])
    {
      dst[at + j] := src[j];
    }
  }

  /** Two copies into adjacent ranges amount to one copy of their concatenation. */
  lemma AdjacentCopies(s: seq<byte>, t: seq<byte>, u: seq<byte>, at: nat, a: seq<byte>, b: seq<byte>)
    requires at + |a| + |b| <= |s|
    requires t == s[..at] + a + s[at + |a|..]
    requires u == t[..at + |a|] + b + t[at + |a| + |b|..]
    ensures u == s[..at] + (a + b) + s[at + |a| + |b|..]
  {
    assert t[..at + |a|] == s[..at] + a;
    assert t[at + |a| + |b|..] == s[at + |a| + |b|..];
  }

  /** One iteration of serialize's loop: the five field copies of one token at cursor `i`. */
  method WriteRecord(token: Token, data: array<byte>, i: nat)
    requires WellSized(token) && i + TokenSize <= data.Length
    modifies data
    ensures data[..] == old(data[..i]) + Encode(token) + old(data[i + TokenSize..])
  {
    ghost var s0 := data[..];
    var j := i;
    ArrayCopy(token.id, data, j);
    ghost var s1 := data[..];
    j := j + IdSize;
    data[j] := token.value;
    ghost var s2 := data[..];
    assert s2 == s1[..j] + [token.value] + s1[j + 1..];
    AdjacentCopies(s0, s1, s2, i, token.id, [token.value]);
    j := j + 1;
    ArrayCopy(token.sender, data, j);
    ghost var s3 := data[..];
    AdjacentCopies(s0, s2, s3, i, token.id + [token.value], token.sender);
    j := j + SenderSize;
    ArrayCopy(token.receiver, data, j);
    ghost var s4 := data[..];
    AdjacentCopies(s0, s3, s4, i, token.id + [token.value] + token.sender, token.receiver);
    j := j + ReceiverSize;
    ArrayCopy(token.signature, data, j);
    AdjacentCopies(s0, s4, data[..], i, token.id + [token.value] + token.sender + token.receiver, token.signature);
  }

  /**
   * `serialize`: writes the records of `tokens` contiguously from offset 23 of `data`,
   * leaving the prefix and everything after the last record as they were.
   */
  method Serialize(tokens: seq<Token>, data: array<byte>)
    requires AllWellSized(tokens)
    requires PrefixSize + TokenSize * |tokens| <= data.Length
    modifies data
    ensures data[..] == old(data[..PrefixSize]) + Records(tokens) + old(data[PrefixSize + TokenSize * |tokens|..])
  {
    var i := PrefixSize;
    for n := 0 to |tokens|
      invariant i == PrefixSize + TokenSize * n
      invariant data[..PrefixSize] == old(data[..PrefixSize])
      invariant data[PrefixSize..i] == Records(tokens[..n])
      invariant data[i..] == old(data[i..])
    {
      var token := tokens[n];
      assert WellSized(token) by { assert token in tokens; }
      ghost var before := data[..];
      WriteRecord(token, data, i);
      RecordsSnoc(tokens, n);
      WriteExtends(before, data[..], PrefixSize, i, Encode(token));
      i := i + TokenSize;
    }
    assert tokens[..|tokens|] == tokens;
    assert data[..] == data[..PrefixSize] + data[PrefixSize..i] + data[i..];
  }

  lemma RecordsSnoc(ts: seq<Token>, n: nat)
    requires AllWellSized(ts) && n < |ts|
    ensures Records(ts[..n + 1]) == Records(ts[..n]) + Encode(ts[n])
  {
    assert ts[..n + 1][..n] == ts[..n];
  }

  /** Writing `e` at `i` extends the run `[lo, i)` by `e` and leaves the rest of the array alone. */
  lemma WriteExtends(before: seq<byte>, after: seq<byte>, lo: nat, i: nat, e: seq<byte>)
    requires lo <= i && i + |e| <= |before|
    requires after == before[..i] + e + before[i + |e|..]
    ensures after[..lo] == before[..lo]
    ensures after[lo..i + |e|] == before[lo..i] + e
    ensures after[i + |e|..] == before[i..][|e|..]
  {
  }

  /**
   * `deserialize`: the tokens read from a datagram. A buffer whose payload after the prefix
   * is not a whole number of records yields no tokens.
   */
  method Deserialize(data: seq<byte>) returns (tokens: seq<Token>)
    ensures tokens == Decoded(data)
  {
    var size := |data|;
    if KotlinRem(size - PrefixSize, TokenSize) != 0 {
      return [];
    }
    var tokenAmount := (size - PrefixSize) / TokenSize;
    tokens := [];
    var i := PrefixSize;
    for n := 0 to tokenAmount
      invariant i == PrefixSize + TokenSize * n
      invariant tokens == Decoded(data)[..n]
    {
      DecodedSnoc(data, n);
      NextRecordOffset(n);
      ghost var at := i;
      var id := data[i..i + IdSize];
      i := i + IdSize;
      var value := data[i];
      i := i + 1;
      var sender := data[i..i + SenderSize];
      i := i + SenderSize;
      var receiver := data[i..i + ReceiverSize];
      i := i + ReceiverSize;
      var signature := data[i..i + SignatureSize];
      i := i + SignatureSize;
      assert Token(id, value, sender, receiver, signature) == Parse(data, at);
      tokens := tokens + [Token(id, value, sender, receiver, signature)];
    }
    assert Decoded(data)[..tokenAmount] == Decoded(data);
  }

  /** The first n + 1 tokens of a buffer are its first n and the record parsed at `23 + 221n`. */
  lemma DecodedSnoc(data: seq<byte>, n: nat)
    requires WholeRecords(|data|) && n < (|data| - PrefixSize) / TokenSize
    ensures PrefixSize + TokenSize * n + TokenSize <= |data|
    ensures n + 1 <= |Decoded(data)|
    ensures Decoded(data)[..n + 1] == Decoded(data)[..n] + [Parse(data, PrefixSize + TokenSize * n)]
  {
    DecodedAt(data, n);
    var d := Decoded(data);
    assert d[..n + 1] == d[..n] + [d[n]];
  }

  lemma NextRecordOffset(n: nat)
    ensures PrefixSize + TokenSize * (n + 1) == PrefixSize + TokenSize * n + 221
  {
  }

  /** Token n of a buffer that passes the size check is the record parsed at `23 + 221n`. */
  lemma DecodedAt(data: seq<byte>, n: nat)
    requires WholeRecords(|data|) && n < (|data| - PrefixSize) / TokenSize
    ensures n < |Decoded(data)| && PrefixSize + TokenSize * n + TokenSize <= |data|
    ensures Decoded(data)[n] == Parse(data, PrefixSize + TokenSize * n)
  {
    RecordBound(|data|, RecordCount(|data|), n);
  }

  /** The message a sender signs and a receiver checks: `id ∥ value ∥ sender ∥ receiver`. */
  function SignedMessage(t: Token): (m: seq<byte>)
    ensures |m| == |t.id| + 1 + |t.sender| + |t.receiver|
    ensures WellSized(t) ==>
      |m| == 157 && m[..8] == t.id && m[8] == t.value && m[9..83] == t.sender && m[83..] == t.receiver
  {
    t.id + [t.value] + t.sender + t.receiver
  }

  /** For well-sized tokens the signed message pins down every field but the signature. */
  lemma SignedMessageInjective(a: Token, b: Token)
    requires WellSized(a) && WellSized(b)
    ensures SignedMessage(a) == SignedMessage(b) <==> a.(signature := b.signature) == b
  {
    if SignedMessage(a) == SignedMessage(b) {
      assert a.id == SignedMessage(a)[..8] && b.id == SignedMessage(b)[..8];
      assert a.sender == SignedMessage(a)[9..83] && b.sender == SignedMessage(b)[9..83];
    }
  }

  /** `Token.create`: a token signed by its sender. */
  function Create(c: Crypto.Scheme, id: seq<byte>, value: byte, sender: seq<byte>, receiver: seq<byte>, key: Crypto.PrivateKey): (r: Token)
    ensures r.id == id && r.value == value && r.sender == sender && r.receiver == receiver
    ensures r.signature == c.sign(key, SignedMessage(r))
    ensures forall old_signature :: r == Sign(c, Token(id, value, sender, receiver, old_signature), key)
  {
    Token(id, value, sender, receiver, c.sign(key, id + [value] + sender + receiver))
  }

  /** `Token.sign`: replaces the signature by one over the token's current fields. */
  function Sign(c: Crypto.Scheme, t: Token, key: Crypto.PrivateKey): (r: Token)
    ensures r.(signature := t.signature) == t && SignedMessage(r) == SignedMessage(t)
  {
    t.(signature := c.sign(key, SignedMessage(t)))
  }

  /** `verifySenderSignature`: the signature checks out under the claimed sender. */
  predicate VerifySenderSignature(c: Crypto.Scheme, t: Token) {
    c.verify(t.sender, t.signature, SignedMessage(t))
  }

  /** Re-signing a token with its sender's private key makes it verify, whatever it held before. */
  lemma SignVerifies(c: Crypto.Scheme, t: Token, key: Crypto.PrivateKey)
    requires Crypto.Sound(c) && t.sender == c.pub(key)
    ensures VerifySenderSignature(c, Sign(c, t, key))
    ensures Equals(Sign(c, t, key), t) && Sign(c, t, key).(signature := t.signature) == t
  {
  }

  /** A token created with the sender's private key verifies, and has the widths of the record. */
  lemma CreateVerifies(c: Crypto.Scheme, id: seq<byte>, value: byte, sender: seq<byte>, receiver: seq<byte>, key: Crypto.PrivateKey)
    requires Crypto.Sound(c) && sender == c.pub(key)
    ensures VerifySenderSignature(c, Create(c, id, value, sender, receiver, key))
    ensures |id| == IdSize && |receiver| == ReceiverSize ==> WellSized(Create(c, id, value, sender, receiver, key))
  {
  }

  /** `equals` looks at the id only: rewriting value, sender, receiver or signature keeps a token equal to itself. */
  lemma EqualsIgnoresPayload(t: Token, value: byte, sender: seq<byte>, receiver: seq<byte>, signature: seq<byte>)
    ensures Equals(t, t.(value := value, sender := sender, receiver := receiver, signature := signature))
    ensures forall u: Token :: u.id != t.id ==> !Equals(t, u)
  {
  }
}
