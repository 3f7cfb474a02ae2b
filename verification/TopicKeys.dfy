/** Log records, their ids and the keys of the topic index (topicsdb/key.go). */
module TopicKeys {
  type Byte = b: nat | b < 256
  type Bytes = seq<Byte>
  type Hash = h: Bytes | |h| == 32 witness seq(32, _ => 0)
  type Address = a: Bytes | |a| == 20 witness seq(20, _ => 0)

  const UINT_SIZE := 8
  const HASH_SIZE := 32
  const ADDRESS_SIZE := 20
  const ID_SIZE := 48
  const MAX_COUNT := 0xff
  const UINT_LIMIT := 0x1_0000_0000_0000_0000

  datatype Log = Log(block: nat, tx: Hash, logIndex: nat, address: Address, blockHash: Hash, topics: seq<Hash>,
      data: Bytes)

  // ---------------------------------------------------------------- keys (key.go)

  /** Big-endian. */
  function UintToBytes(n: nat, size: nat): (r: Bytes)
    ensures |r| == size
    decreases size, n
  {
    if size == 0 then [] else UintToBytes(n / 256, size - 1) + [n % 256]
  }

  function BytesToUint(b: Bytes): nat {
    if b == [] then 0 else BytesToUint(b[..|b| - 1]) * 256 + b[|b| - 1]
  }

  function Power256(size: nat): nat {
    if size == 0 then 1 else 256 * Power256(size - 1)
  }

  lemma {:induction false} UintRoundTrip(n: nat, size: nat)
    requires n < Power256(size)
    ensures BytesToUint(UintToBytes(n, size)) == n
    decreases size
  {
    if size > 0 {
      UintRoundTrip(n / 256, size - 1);
      var b := UintToBytes(n, size);
      assert b[..size - 1] == UintToBytes(n / 256, size - 1);
    }
  }

  /** The order in which a database lists its keys: the first byte that differs decides. */
  ghost predicate Precedes(a: Bytes, b: Bytes) {
    exists i {:trigger DifferAt(a, b, i)} :: DifferAt(a, b, i) && a[i] < b[i]
  }

  ghost predicate DifferAt(a: Bytes, b: Bytes, i: int) {
    0 <= i < |a| && i < |b| && a[..i] == b[..i]
  }

  /** Numbers are listed in their order. */
  lemma {:induction false} UintOrder(m: nat, n: nat, size: nat)
    requires m < n < Power256(size)
    ensures Precedes(UintToBytes(m, size), UintToBytes(n, size))
    decreases size
  {
    var a, b := UintToBytes(m / 256, size - 1), UintToBytes(n / 256, size - 1);
    if m / 256 == n / 256 {
      LongerDiffer(a, b, [m % 256], [n % 256], size - 1);
    } else {
      UintOrder(m / 256, n / 256, size - 1);
      var i :| DifferAt(a, b, i) && a[i] < b[i];
      LongerDiffer(a, b, [m % 256], [n % 256], i);
    }
  }

  lemma LongerDiffer(a: Bytes, b: Bytes, x: Bytes, y: Bytes, i: nat)
    requires |a| == |b| && i < |a + x| && i < |b + y|
    requires i <= |a| && a[..i] == b[..i]
    ensures DifferAt(a + x, b + y, i)
  {
    assert (a + x)[..i] == a[..i] && (b + y)[..i] == b[..i];
  }

  lemma PrefixKeepsOrder(prefix: Bytes, a: Bytes, b: Bytes)
    requires Precedes(a, b)
    ensures Precedes(prefix + a, prefix + b)
  {
    var i :| DifferAt(a, b, i) && a[i] < b[i];
    assert (prefix + a)[..|prefix| + i] == prefix + a[..i];
    assert (prefix + b)[..|prefix| + i] == prefix + b[..i];
    assert DifferAt(prefix + a, prefix + b, |prefix| + i);
  }

  lemma FitsEightBytes()
    ensures Power256(UINT_SIZE) == UINT_LIMIT
  {
    assert Power256(8) == 256 * Power256(7) == 65536 * Power256(6) == 0x100_0000 * Power256(5) ==
      0x1_0000_0000 * Power256(4);
    assert Power256(4) == 0x1_0000_0000;
  }

  function NewID(block: nat, tx: Hash, logIndex: nat): (id: Bytes)
    ensures |id| == ID_SIZE
  {
    UintToBytes(block, UINT_SIZE) + tx + UintToBytes(logIndex, UINT_SIZE)
  }

  function IdOf(l: Log): (id: Bytes)
    ensures |id| == ID_SIZE
  {
    NewID(l.block, l.tx, l.logIndex)
  }

  function BlockNumber(id: Bytes): nat
    requires |id| == ID_SIZE
  {
    BytesToUint(id[..UINT_SIZE])
  }

  function TxHash(id: Bytes): Hash
    requires |id| == ID_SIZE
  {
    id[UINT_SIZE..UINT_SIZE + HASH_SIZE]
  }

  function LogIndex(id: Bytes): nat
    requires |id| == ID_SIZE
  {
    BytesToUint(id[UINT_SIZE + HASH_SIZE..])
  }

  /** An id tells block, transaction and log index. */
  lemma IdRoundTrip(block: nat, tx: Hash, logIndex: nat)
    requires block < UINT_LIMIT && logIndex < UINT_LIMIT
    ensures var id := NewID(block, tx, logIndex);
      BlockNumber(id) == block && TxHash(id) == tx && LogIndex(id) == logIndex
  {
    var id := NewID(block, tx, logIndex);
    FitsEightBytes();
    UintRoundTrip(block, UINT_SIZE);
    UintRoundTrip(logIndex, UINT_SIZE);
    assert id[..UINT_SIZE] == UintToBytes(block, UINT_SIZE);
    assert id[UINT_SIZE..UINT_SIZE + HASH_SIZE] == tx;
    assert id[UINT_SIZE + HASH_SIZE..] == UintToBytes(logIndex, UINT_SIZE);
  }

  function TopicKey(topic: Hash, pos: Byte, id: Bytes): Bytes {
    topic + [pos] + id
  }

  function OtherKey(id: Bytes, pos: Byte): Bytes {
    id + [pos]
  }

  function ExtractId(key: Bytes): (id: Bytes)
    requires |key| == HASH_SIZE + 1 + ID_SIZE
    ensures |id| == ID_SIZE
  {
    key[HASH_SIZE + 1..]
  }

  function ExtractPos(key: Bytes): Byte
    requires |key| == ID_SIZE + 1
  {
    key[ID_SIZE]
  }

  /** The keys of one topic at one position are those with the prefix, and each tells its id. */
  lemma TopicKeyParts(topic: Hash, pos: Byte, id: Bytes, topic': Hash, pos': Byte)
    requires |id| == ID_SIZE
    ensures ExtractId(TopicKey(topic, pos, id)) == id
    ensures topic' + [pos'] <= TopicKey(topic, pos, id) <==> topic' == topic && pos' == pos
  {
    var key, prefix := TopicKey(topic, pos, id), topic' + [pos'];
    assert key[HASH_SIZE + 1..] == id;
    assert key[..HASH_SIZE] == topic && key[HASH_SIZE] == pos && key[..HASH_SIZE + 1] == topic + [pos];
    assert prefix[..HASH_SIZE] == topic' && prefix[HASH_SIZE] == pos';
    if prefix <= key {
      assert key[..HASH_SIZE + 1] == prefix;
    }
  }

  /** The index lists the logs of one topic at one position by block. */
  lemma KeysByBlock(topic: Hash, pos: Byte, block: nat, tx: Hash, logIndex: nat, block': nat, tx': Hash, logIndex': nat)
    requires block < block' < UINT_LIMIT
    ensures var id, id' := NewID(block, tx, logIndex), NewID(block', tx', logIndex');
      Precedes(TopicKey(topic, pos, id), TopicKey(topic, pos, id'))
  {
    FitsEightBytes();
    UintOrder(block, block', UINT_SIZE);
    var a, b := UintToBytes(block, UINT_SIZE), UintToBytes(block', UINT_SIZE);
    var i :| DifferAt(a, b, i) && a[i] < b[i];
    var x, y := tx + UintToBytes(logIndex, UINT_SIZE), tx' + UintToBytes(logIndex', UINT_SIZE);
    LongerDiffer(a, b, x, y, i);
    assert NewID(block, tx, logIndex) == a + x && NewID(block', tx', logIndex') == b + y;
    PrefixKeepsOrder(topic + [pos], a + x, b + y);
  }

  lemma OtherKeyParts(id: Bytes, pos: Byte, id': Bytes)
    requires |id| == |id'| == ID_SIZE
    ensures ExtractPos(OtherKey(id, pos)) == pos
    ensures id' <= OtherKey(id, pos) <==> id' == id
  {
    var key := OtherKey(id, pos);
    assert key[..ID_SIZE] == id;
    if id' <= key {
      assert key[..ID_SIZE] == id';
    }
  }
}
