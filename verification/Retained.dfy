/** Retained messages as values: what one store, delete, eviction or expiry does to the list
    of messages (main/mqtt_broker.c:567-749), newest stored first. */
module Retained {
  import opened Bytes

  const STRUCT_SIZE := 32  // sizeof(retained_msg_t) on the 32-bit target
  const MAX_PAYLOAD := 0x1_0000  // BROKER_RETAIN_MAX_MSG_SIZE

  datatype Message = Message(topic: seq<byte>, payload: seq<byte>, storedAt: int)

  /** retained_msg_size. */
  function Size(m: Message): nat {
    STRUCT_SIZE + |m.topic| + 1 + |m.payload|
  }

  function Total(ms: seq<Message>): nat {
    if ms == [] then 0 else Size(ms[0]) + Total(ms[1..])
  }

  function Drop(ms: seq<Message>, k: nat): seq<Message>
    requires k < |ms|
  {
    ms[..k] + ms[k + 1..]
  }

  /** The first message on the topic, or the length of the list. */
  function Find(ms: seq<Message>, topic: seq<byte>): (k: nat)
    ensures k <= |ms| && (k < |ms| ==> ms[k].topic == topic)
    ensures forall i | 0 <= i < k :: ms[i].topic != topic
  {
    if ms == [] || ms[0].topic == topic then 0 else 1 + Find(ms[1..], topic)
  }

  function Without(ms: seq<Message>, topic: seq<byte>): seq<Message> {
    var k := Find(ms, topic);
    if k < |ms| then Drop(ms, k) else ms
  }

  /** The first of the messages with the least timestamp. */
  ghost predicate IsOldest(ms: seq<Message>, k: nat) {
    && k < |ms|
    && (forall i | 0 <= i < |ms| :: ms[k].storedAt <= ms[i].storedAt)
    && (forall i | 0 <= i < k :: ms[k].storedAt < ms[i].storedAt)
  }

  function Oldest(ms: seq<Message>): (k: nat)
    requires ms != []
    ensures IsOldest(ms, k)
  {
    if |ms| == 1 then 0
    else
      var k := Oldest(ms[1..]);
      assert forall i | 1 <= i < |ms| :: ms[i] == ms[1..][i - 1];
      if ms[0].storedAt <= ms[k + 1].storedAt then 0 else k + 1
  }

  function Evict(ms: seq<Message>, needed: nat, limit: nat): seq<Message>
    decreases |ms|
  {
    if ms == [] || Total(ms) + needed <= limit then ms
    else Evict(Drop(ms, Oldest(ms)), needed, limit)
  }

  predicate Expired(m: Message, now: int, ttlSec: int) {
    now - m.storedAt > ttlSec * 1000
  }

  function Fresh(ms: seq<Message>, now: int, ttlSec: int): seq<Message> {
    if ms == [] then []
    else (if Expired(ms[0], now, ttlSec) then [] else [ms[0]]) + Fresh(ms[1..], now, ttlSec)
  }

  function Sweep(ms: seq<Message>, now: int, ttlSec: int): seq<Message> {
    if ttlSec <= 0 then ms else Fresh(ms, now, ttlSec)
  }

  /** A publish carries a message that will be kept: not empty, not too large, and allocated. */
  predicate Keeps(payload: seq<byte>, memory: bool) {
    0 < |payload| <= MAX_PAYLOAD && memory
  }

  function Put(ms: seq<Message>, topic: seq<byte>, payload: seq<byte>, now: int, limit: nat, memory: bool)
    : seq<Message>
  {
    if payload == [] then Without(ms, topic)
    else if !Keeps(payload, memory) then ms
    else
      var m := Message(topic, payload, now);
      [m] + Evict(Without(ms, topic), Size(m), limit)
  }

  ghost predicate Distinct(ms: seq<Message>) {
    forall i, j | 0 <= i < j < |ms| :: ms[i].topic != ms[j].topic
  }

  lemma {:induction false} TotalOfDrop(ms: seq<Message>, k: nat)
    requires k < |ms|
    ensures Total(Drop(ms, k)) == Total(ms) - Size(ms[k])
  {
    if k == 0 {
      assert Drop(ms, 0) == ms[1..];
    } else {
      TotalOfDrop(ms[1..], k - 1);
      assert Drop(ms, k)[0] == ms[0] && Drop(ms, k)[1..] == Drop(ms[1..], k - 1);
    }
  }

  lemma DistinctDrop(ms: seq<Message>, k: nat)
    requires k < |ms| && Distinct(ms)
    ensures Distinct(Drop(ms, k))
  {
    var r := Drop(ms, k);
    forall i, j | 0 <= i < j < |r| ensures r[i].topic != r[j].topic {
      assert r[i] == ms[if i < k then i else i + 1] && r[j] == ms[if j < k then j else j + 1];
    }
  }
}
