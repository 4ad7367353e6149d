/** The linked list that holds them. */
module RetainStore {
  import opened Bytes
  import opened Retained
  import opened RetainedLaws

  class Node {
    var next: Node?
    const message: Message

    constructor (message: Message)
      ensures this.message == message && next == null
    {
      this.message := message;
      next := null;
    }
  }

  ghost function At(nodes: seq<Node>, i: int): Node? {
    if 0 <= i < |nodes| then nodes[i] else null
  }

  class RetainStore {
    var head: Node?
    var bytes: nat
    var count: nat
    ghost var spine: seq<Node>
    ghost var contents: seq<Message>
    ghost var repr: set<Node>

    ghost predicate Linked()
      reads this, repr
    {
      && head == At(spine, 0)
      && (forall i | 0 <= i < |spine| :: spine[i] in repr)
      && (forall i {:trigger spine[i].next} | 0 <= i < |spine| :: spine[i].next == At(spine, i + 1))
      && (forall i, j | 0 <= i < j < |spine| :: spine[i] != spine[j])
      && |contents| == |spine|
      && (forall i | 0 <= i < |spine| :: spine[i].message == contents[i])
    }

    ghost predicate Counted()
      reads this
    {
      bytes == Total(contents) && count == |contents|
    }

    /** The list is well linked, no topic occurs twice, and both counters are exact. */
    ghost predicate Valid()
      reads this, repr
    {
      Linked() && Counted() && Distinct(contents)
    }

    constructor ()
      ensures Valid() && contents == [] && repr == {}
    {
      head, bytes, count := null, 0, 0;
      spine, contents, repr := [], [], {};
    }

    /** The relinking half of retain_remove. */
    method Unlink(r: Node, prev: Node?, ghost k: nat)
      requires Linked()
      requires k < |spine| && spine[k] == r && prev == At(spine, k - 1)
      modifies `head, `spine, `contents, repr
      ensures Linked()
      ensures spine == old(spine[..k] + spine[k + 1..]) && contents == Drop(old(contents), k)
    {
      if prev != null {
        prev.next := r.next;
      } else {
        head := r.next;
      }
      ghost var was, ms := spine, contents;
      spine := was[..k] + was[k + 1..];
      contents := Drop(contents, k);
      assert forall i | 0 <= i < k :: spine[i] == was[i] && contents[i] == ms[i];
      assert forall i | k <= i < |spine| :: spine[i] == was[i + 1] && contents[i] == ms[i + 1];
      forall i | 0 <= i < |spine| ensures spine[i].next == At(spine, i + 1) {
        if i < k - 1 { assert was[i].next == was[i + 1]; }
      }
    }

    /** retain_free_msg: both of its guards against underflow are dead code. */
    method Free(m: Message, ghost ms: seq<Message>)
      requires bytes == Total(ms) + Size(m) && count == |ms| + 1
      modifies `bytes, `count
      ensures bytes == Total(ms) && count == |ms|
    {
      var size := Size(m);
      if bytes >= size {
        bytes := bytes - size;
      } else {
        assert false;
      }
      if count > 0 {
        count := count - 1;
      }
    }

    /** retain_remove. */
    method Remove(r: Node, prev: Node?, ghost k: nat)
      requires Valid()
      requires k < |spine| && spine[k] == r && prev == At(spine, k - 1)
      modifies this, repr
      ensures Valid() && contents == Drop(old(contents), k)
      ensures spine == old(spine[..k] + spine[k + 1..]) && repr == old(repr)
    {
      TotalOfDrop(contents, k);
      DistinctDrop(contents, k);
      Unlink(r, prev, k);
      Free(r.message, contents);
    }

    /** The search of retain_store: the node on a topic and the node before it. */
    method Lookup(topic: seq<byte>) returns (r: Node?, prev: Node?, ghost k: nat)
      requires Valid()
      ensures k == Find(contents, topic)
      ensures k < |spine| ==> r == spine[k] && prev == At(spine, k - 1)
      ensures if r == null then forall m | m in contents :: m.topic != topic
              else r.message in contents && r.message.topic == topic && r in repr
      ensures k == |spine| ==> r == null
    {
      prev, r, k := null, head, 0;
      while r != null
        invariant k <= |spine|
        invariant r == At(spine, k)
        invariant prev == At(spine, k - 1)
        invariant forall i | 0 <= i < k :: contents[i].topic != topic
        decreases |spine| - k
      {
        if r.message.topic == topic { return; }
        prev, r, k := r, r.next, k + 1;
      }
    }

    /** The scan of retain_evict_for_space for the oldest node. */
    method FindOldest() returns (oldest: Node, oldestPrev: Node?, ghost k: nat)
      requires Valid() && head != null
      ensures IsOldest(contents, k)
      ensures oldest == spine[k] && oldestPrev == At(spine, k - 1)
      ensures oldest.message in contents && forall m | m in contents :: oldest.message.storedAt <= m.storedAt
    {
      oldest, oldestPrev, k := head, null, 0;
      var prev, r := null, head;
      ghost var i := 0;
      while r != null
        invariant i <= |spine| && r == At(spine, i)
        invariant prev == At(spine, i - 1)
        invariant k < |spine| && oldest == spine[k] && oldestPrev == At(spine, k - 1)
        invariant forall j | 0 <= j < i :: contents[k].storedAt <= contents[j].storedAt
        invariant forall j | 0 <= j < k :: contents[k].storedAt < contents[j].storedAt
        decreases |spine| - i
      {
        if r.message.storedAt < oldest.message.storedAt {
          oldest, oldestPrev, k := r, prev, i;
        }
        prev, r, i := r, r.next, i + 1;
      }
    }

    /** retain_evict_for_space. */
    method EvictForSpace(needed: nat, limit: nat)
      requires Valid()
      modifies this, repr
      ensures Valid() && contents == Evict(old(contents), needed, limit)
      ensures repr == old(repr)
    {
      while head != null && bytes + needed > limit
        invariant Valid()
        invariant repr == old(repr)
        invariant Evict(contents, needed, limit) == Evict(old(contents), needed, limit)
        decreases |spine|
      {
        var oldest, prev, k := FindOldest();
        OldestIsUnique(contents, k);
        Remove(oldest, prev, k);
      }
    }

    /** retain_evict_expired at the time `now`. */
    method EvictExpired(now: int, ttlSec: int)
      requires Valid()
      modifies this, repr
      ensures Valid() && contents == Sweep(old(contents), now, ttlSec)
      ensures repr == old(repr)
    {
      if ttlSec <= 0 { return; }
      var prev, r := null, head;
      ghost var k := 0;
      assert contents[..0] == [] && contents[0..] == contents;
      while r != null
        invariant Valid()
        invariant repr == old(repr)
        invariant k <= |spine| && r == At(spine, k)
        invariant prev == At(spine, k - 1)
        invariant FreshFrom(contents, k, now, ttlSec) == Fresh(old(contents), now, ttlSec)
        decreases |spine| - k
      {
        var next := r.next;
        FreshStep(contents, k, now, ttlSec);
        if Expired(r.message, now, ttlSec) {
          Remove(r, prev, k);
        } else {
          prev := r;
          k := k + 1;
        }
        r := next;
      }
      assert contents[..k] == contents && contents[k..] == [];
    }

    /** retain_store at the time `now`; `memory` says whether every allocation succeeds. */
    method Store(topic: seq<byte>, payload: seq<byte>, now: int, limit: nat, memory: bool)
      requires Valid()
      modifies this, repr
      ensures Valid() && contents == Put(old(contents), topic, payload, now, limit, memory)
      ensures repr >= old(repr) && fresh(repr - old(repr))
    {
      if |payload| == 0 {
        var r, prev, k := Lookup(topic);
        FindIs(contents, topic, k);
        if r != null { Remove(r, prev, k); }
        return;
      }
      if |payload| > MAX_PAYLOAD { return; }
      if !memory { return; }
      var node := new Node(Message(topic, payload, now));
      var needed := Size(node.message);
      WithoutMeaning(contents, topic);
      EvictMeaning(Without(contents, topic), needed, limit);
      var r, prev, k := Lookup(topic);
      FindIs(contents, topic, k);
      if r != null { Remove(r, prev, k); }
      EvictForSpace(needed, limit);
      Insert(node);
    }

    /** The end of retain_store: link a new node at the head and count it. */
    method Insert(node: Node)
      requires Valid() && node !in repr
      requires forall m | m in contents :: m.topic != node.message.topic
      modifies this, node
      ensures Valid() && contents == [node.message] + old(contents) && repr == old(repr) + {node}
    {
      node.next := head;
      head := node;
      bytes := bytes + Size(node.message);
      count := count + 1;
      spine, repr := [node] + spine, repr + {node};
      ghost var ms := contents;
      contents := [node.message] + ms;
      assert contents[1..] == ms;
    }
  }

  /** The first k messages, already looked at, and the fresh ones of the rest. */
  function FreshFrom(ms: seq<Message>, k: nat, now: int, ttlSec: int): seq<Message>
    requires k <= |ms|
  {
    ms[..k] + Fresh(ms[k..], now, ttlSec)
  }

  lemma FreshStep(ms: seq<Message>, k: nat, now: int, ttlSec: int)
    requires k < |ms|
    ensures Expired(ms[k], now, ttlSec) ==> FreshFrom(Drop(ms, k), k, now, ttlSec) == FreshFrom(ms, k, now, ttlSec)
    ensures !Expired(ms[k], now, ttlSec) ==> FreshFrom(ms, k + 1, now, ttlSec) == FreshFrom(ms, k, now, ttlSec)
  {
    assert ms[k..][0] == ms[k] && ms[k..][1..] == ms[k + 1..];
    assert Drop(ms, k)[..k] == ms[..k] && Drop(ms, k)[k..] == ms[k + 1..];
    assert ms[..k + 1] == ms[..k] + [ms[k]];
  }

  lemma OldestIsUnique(ms: seq<Message>, k: nat)
    requires IsOldest(ms, k)
    ensures k == Oldest(ms)
  {
    var o := Oldest(ms);
    assert ms[k].storedAt <= ms[o].storedAt && ms[o].storedAt <= ms[k].storedAt;
  }

  lemma FindIs(ms: seq<Message>, topic: seq<byte>, k: nat)
    requires k == Find(ms, topic)
    ensures k < |ms| ==> Without(ms, topic) == Drop(ms, k)
    ensures k == |ms| ==> Without(ms, topic) == ms
  {}
}
