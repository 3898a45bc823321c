/** Keys, values, write batches and the plain map they denote. */
module Updates {

  newtype byte = x: int | 0 <= x < 256

  type Bytes = seq<byte>

  datatype Update = Update(key: Bytes, value: Bytes)

  type Batch = seq<Update>

  type KvMap = map<Bytes, Bytes>

  /** The map after the updates of a batch were applied in order. */
  function ApplyBatch(m: KvMap, batch: Batch): KvMap {
    if batch == [] then m
    else
      var last := batch[|batch| - 1];
      ApplyBatch(m, batch[..|batch| - 1])[last.key := last.value]
  }

  /** The plain-map meaning of a list of batches. */
  function Replay(batches: seq<Batch>): KvMap {
    if batches == [] then map[]
    else ApplyBatch(Replay(batches[..|batches| - 1]), batches[|batches| - 1])
  }

  /** What has_room_for adds up: every key and every value of the batch. */
  function BatchBytes(batch: Batch): nat {
    if batch == [] then 0
    else
      var last := batch[|batch| - 1];
      BatchBytes(batch[..|batch| - 1]) + |last.key| + |last.value|
  }

  /** All keys and values of a batch, one behind the other. */
  function Payload(batch: Batch): Bytes {
    if batch == [] then [] else batch[0].key + batch[0].value + Payload(batch[1..])
  }

  lemma {:induction false} BatchBytesAdds(a: Batch, b: Batch)
    ensures BatchBytes(a + b) == BatchBytes(a) + BatchBytes(b)
  {
    if b == [] {
      assert a + b == a;
    } else {
      assert (a + b)[..|a + b| - 1] == a + b[..|b| - 1];
      BatchBytesAdds(a, b[..|b| - 1]);
    }
  }

  lemma BatchBytesOfOne(u: Update)
    ensures BatchBytes([]) == 0 && BatchBytes([u]) == |u.key| + |u.value|
  {
    assert [u][..0] == [];
  }

  /** The bytes counted are those of all keys and values together, repeated keys included. */
  lemma {:induction false} BatchBytesIsPayload(batch: Batch)
    ensures BatchBytes(batch) == |Payload(batch)|
  {
    if batch != [] {
      BatchBytesIsPayload(batch[1..]);
      BatchBytesAdds([batch[0]], batch[1..]);
      BatchBytesOfOne(batch[0]);
      assert [batch[0]] + batch[1..] == batch;
    }
  }

  /** What add really copies: a key is copied only when it is new. */
  function ClonedBytes(m: KvMap, batch: Batch): nat {
    if batch == [] then 0
    else
      var pre := batch[..|batch| - 1];
      var last := batch[|batch| - 1];
      ClonedBytes(m, pre) + |last.value| + (if last.key in ApplyBatch(m, pre) then 0 else |last.key|)
  }

  lemma {:induction false} ClonedAtMostBatch(m: KvMap, batch: Batch)
    ensures ClonedBytes(m, batch) <= BatchBytes(batch)
  {
    if batch != [] {
      ClonedAtMostBatch(m, batch[..|batch| - 1]);
    }
  }

  lemma {:induction false} ApplyOverlay(base: KvMap, m: KvMap, batch: Batch)
    ensures base + ApplyBatch(m, batch) == ApplyBatch(base + m, batch)
  {
    if batch != [] {
      ApplyOverlay(base, m, batch[..|batch| - 1]);
    }
  }

  /** Keys are never removed by a batch. */
  lemma {:induction false} ApplyKeepsKeys(m: KvMap, batch: Batch)
    ensures m.Keys <= ApplyBatch(m, batch).Keys
  {
    if batch != [] {
      ApplyKeepsKeys(m, batch[..|batch| - 1]);
    }
  }

  lemma ReplaySnoc(batches: seq<Batch>, batch: Batch)
    ensures Replay(batches + [batch]) == ApplyBatch(Replay(batches), batch)
  {
    assert (batches + [batch])[..|batches|] == batches;
  }
}
