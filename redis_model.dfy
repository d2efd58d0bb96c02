/** The Redis structures both chat stores use, as values: message hashes,
    sorted sets of message identifiers, the newest-first range read, and
    the fixed-window request counter. A sorted set of messages is scored by
    the time each was added, so it is modelled as the sequence of its
    members in score order, oldest first. */
module RedisModel {
  import opened Wrappers

  /** A `message:{id}` hash. */
  datatype Message = Message(
    id: string,
    userId: string,
    role: string,
    content: string,
    timestamp: string,
    sessionId: string)

  predicate NoDup(z: seq<string>) {
    forall i, j :: 0 <= i < j < |z| ==> z[i] != z[j]
  }

  /** The members of a sorted set other than `x`. */
  function Remove(z: seq<string>, x: string): (r: seq<string>)
    ensures x !in r && |r| <= |z|
    ensures forall y :: y in r <==> y in z && y != x
  {
    if z == [] then [] else (if z[0] == x then [] else [z[0]]) + Remove(z[1..], x)
  }

  /** `ZADD key {member: now}` with a score later than every score in the
      set: the member moves to (or is added at) the newest end. */
  function ZAdd(z: seq<string>, member: string): (r: seq<string>)
    ensures |r| >= 1 && r[|r| - 1] == member
    ensures forall y :: y in r <==> y in z || y == member
  {
    Remove(z, member) + [member]
  }

  /** Removing leaves a set without repetitions without repetitions. */
  lemma {:induction false} RemoveNoDup(z: seq<string>, x: string)
    requires NoDup(z)
    ensures NoDup(Remove(z, x))
    decreases |z|
  {
    if z != [] {
      RemoveNoDup(z[1..], x);
      assert NoDup(z[1..]) by {
        forall i, j | 0 <= i < j < |z| - 1 ensures z[1..][i] != z[1..][j] {
          assert z[1..][i] == z[i + 1] && z[1..][j] == z[j + 1];
        }
      }
      var head := if z[0] == x then [] else [z[0]];
      var rest := Remove(z[1..], x);
      assert z[0] !in z[1..];
      assert forall i :: 0 <= i < |head + rest| ==>
        (head + rest)[i] == if i < |head| then head[i] else rest[i - |head|];
    }
  }

  lemma {:induction false} RemoveAbsent(z: seq<string>, x: string)
    requires x !in z
    ensures Remove(z, x) == z
    decreases |z|
  {
    if z != [] {
      RemoveAbsent(z[1..], x);
    }
  }

  /** A sorted set stays free of repetitions under `ZADD`. */
  lemma ZAddNoDup(z: seq<string>, member: string)
    requires NoDup(z)
    ensures NoDup(ZAdd(z, member))
  {
    RemoveNoDup(z, member);
  }

  /** Removing the oldest member of a set without repetitions leaves the
      others, in order. */
  lemma RemoveOldest(z: seq<string>)
    requires z != [] && NoDup(z)
    ensures Remove(z, z[0]) == z[1..]
  {
    assert z[0] !in z[1..];
    RemoveAbsent(z[1..], z[0]);
  }

  /** How many members `ZREVRANGE key 0 {limit - 1}` returns: the stop
      index counts from the newest end when negative, as Redis does, so a
      limit of 0 returns the whole set. */
  function RevRangeCount(size: nat, limit: int): (c: nat)
    ensures c <= size
    ensures limit >= 1 ==> c == (if limit < size then limit else size)
    ensures limit == 0 ==> c == size
  {
    var stop := if limit - 1 < 0 then size + (limit - 1) else limit - 1;
    if stop < 0 then 0 else if stop >= size then size else stop + 1
  }

  function Reverse(s: seq<string>): (r: seq<string>)
    ensures |r| == |s|
  {
    if s == [] then [] else [s[|s| - 1]] + Reverse(s[..|s| - 1])
  }

  /** `ZREVRANGE key 0 {limit - 1}`: members, newest first. */
  function RevRange(z: seq<string>, limit: int): (ids: seq<string>)
  {
    Reverse(z[|z| - RevRangeCount(|z|, limit)..])
  }

  /** The newest `RevRangeCount` members, oldest first. */
  function Newest(z: seq<string>, limit: int): (ids: seq<string>)
    ensures |ids| == RevRangeCount(|z|, limit)
  {
    z[|z| - RevRangeCount(|z|, limit)..]
  }

  /** The stored hashes of the listed identifiers, in the listed order;
      identifiers without a hash (an empty `HGETALL`) are skipped. */
  function Present(hashes: map<string, Message>, ids: seq<string>): (ms: seq<Message>)
    ensures |ms| <= |ids|
  {
    if ids == [] then []
    else
      var id := ids[|ids| - 1];
      Present(hashes, ids[..|ids| - 1]) + (if id in hashes then [hashes[id]] else [])
  }

  function ReverseMessages(s: seq<Message>): (r: seq<Message>)
    ensures |r| == |s|
  {
    if s == [] then [] else ReverseMessages(s[1..]) + [s[0]]
  }

  lemma {:induction false} ReverseMessagesAppend(a: seq<Message>, b: seq<Message>)
    ensures ReverseMessages(a + b) == ReverseMessages(b) + ReverseMessages(a)
    decreases |a|
  {
    if a == [] {
      assert a + b == b;
    } else {
      ReverseMessagesAppend(a[1..], b);
      assert (a + b)[1..] == a[1..] + b;
    }
  }

  /** Reading the newest-first identifiers and reversing the messages
      read gives the messages in stored order. */
  lemma {:induction false} PresentReversed(hashes: map<string, Message>, ids: seq<string>)
    ensures ReverseMessages(Present(hashes, Reverse(ids))) == Present(hashes, ids)
    decreases |ids|
  {
    if ids != [] {
      var n := |ids| - 1;
      var front := Reverse(ids[..n]);
      assert Reverse(ids) == [ids[n]] + front;
      PresentFront(hashes, ids[n], front);
      var head := if ids[n] in hashes then [hashes[ids[n]]] else [];
      ReverseMessagesAppend(head, Present(hashes, front));
      PresentReversed(hashes, ids[..n]);
      assert ReverseMessages(head) == head;
    }
  }

  /** `Present` taken from the front. */
  lemma {:induction false} PresentFront(hashes: map<string, Message>, id: string, rest: seq<string>)
    ensures Present(hashes, [id] + rest) ==
      (if id in hashes then [hashes[id]] else []) + Present(hashes, rest)
    decreases |rest|
  {
    if rest != [] {
      var n := |rest| - 1;
      assert ([id] + rest)[..|rest|] == [id] + rest[..n];
      PresentFront(hashes, id, rest[..n]);
    } else {
      assert [id] + rest == [id];
    }
  }

  /** The read loop of `get_session_messages` and of the application's
      `get_user_messages`: ask for the newest identifiers, newest first,
      keep the messages whose hash exists, and return them reversed. The
      result is the stored messages among the newest `limit` identifiers,
      oldest first. */
  method ReadNewest(z: seq<string>, hashes: map<string, Message>, limit: int)
    returns (messages: seq<Message>)
    ensures messages == Present(hashes, Newest(z, limit))
  {
    var ids := RevRange(z, limit);
    var newestFirst: seq<Message> := [];
    for i := 0 to |ids|
      invariant newestFirst == Present(hashes, ids[..i])
    {
      assert ids[..i + 1][..i] == ids[..i];
      if ids[i] in hashes {
        newestFirst := newestFirst + [hashes[ids[i]]];
      }
    }
    assert ids[..|ids|] == ids;
    messages := ReverseMessages(newestFirst);
    PresentReversed(hashes, Newest(z, limit));
  }

  /** When every identifier has its hash, the read returns exactly the
      newest `limit` messages (all of them for a limit of 0), oldest first,
      each at its place. */
  lemma {:induction false} PresentAll(hashes: map<string, Message>, ids: seq<string>)
    requires forall k :: 0 <= k < |ids| ==> ids[k] in hashes
    ensures |Present(hashes, ids)| == |ids|
    ensures forall k :: 0 <= k < |ids| ==> Present(hashes, ids)[k] == hashes[ids[k]]
    decreases |ids|
  {
    if ids != [] {
      PresentAll(hashes, ids[..|ids| - 1]);
    }
  }

  /** The member added last is the newest one a read of one returns. */
  lemma NewestAdded(z: seq<string>, member: string, hashes: map<string, Message>)
    requires member in hashes
    ensures Newest(ZAdd(z, member), 1) == [member]
    ensures Present(hashes, Newest(ZAdd(z, member), 1)) == [hashes[member]]
  {
    var r := ZAdd(z, member);
    assert Newest(r, 1) == r[|r| - 1..] == [member];
    assert [member][..0] == [];
  }

  /** A `rate_limit:{user}` counter and its time to live, in seconds. */
  datatype RateEntry = RateEntry(count: int, ttl: Option<nat>)

  const RateLimitWindow: nat := 60
  const RateLimitMax: nat := 10

  /** `check_rate_limit`: `INCR` the counter (a missing key counts from 0),
      set the expiry only when the count has just become 1, and allow the
      request while the count is at most ten. */
  function RateStep(entry: Option<RateEntry>): (r: (bool, RateEntry))
    ensures r.1.count == (if entry.None? then 0 else entry.value.count) + 1
    ensures r.0 <==> r.1.count <= RateLimitMax
    ensures r.1.count == 1 ==> r.1.ttl == Some(RateLimitWindow)
    ensures r.1.count != 1 ==> r.1.ttl == (if entry.None? then None else entry.value.ttl)
  {
    var count := (if entry.None? then 0 else entry.value.count) + 1;
    var ttl := if count == 1 then Some(RateLimitWindow) else if entry.None? then None else entry.value.ttl;
    (count <= RateLimitMax, RateEntry(count, ttl))
  }

  /** The counter after `n` requests inside one window, from no key. */
  function RateAfter(n: nat): Option<RateEntry>
  {
    if n == 0 then None else Some(RateStep(RateAfter(n - 1)).1)
  }

  /** Within one window, request `n` (from 1) is allowed exactly when n is
      at most ten, the counter holds n, and the expiry is the one set by
      the first request. */
  lemma {:induction false} RateWindow(n: nat)
    requires n >= 1
    ensures RateAfter(n).Some? && RateAfter(n).value.count == n
    ensures RateAfter(n).value.ttl == Some(RateLimitWindow)
    ensures RateStep(RateAfter(n - 1)).0 <==> n <= RateLimitMax
  {
    if n > 1 {
      RateWindow(n - 1);
    }
  }
}
