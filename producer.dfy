/** `Producer`: appends one message to a topic log under an optimistic transaction that watches
    the topic counter; a single attempt, no retry. */
module Producer {
  import opened Wrappers
  import opened JavaInt
  import opened Keys
  import opened Envelope
  import RedisCache
  import RedisQueue
  import UtilCompare

  /** Time-to-live of `publish(message)`: one day, in seconds. */
  const DEFAULT_EXPIRE_TIME: int := 60 * 60 * 24

  /** `getNextMessageId()` given the counter value read: an absent counter counts as 0; the
      stored value goes through `Integer.parseInt` (which may throw) and a 32-bit `++`. */
  function NextMessageId(counter: Option<string>): Attempt<int>
  {
    match counter
    case None => Returned(1)
    case Some(s) =>
      match ParseInt(s)
      case Some(n) => Returned(Wrap32(n + 1))
      case None => Threw
  }

  /** The next index is 1 on a fresh topic and one more than the stored counter otherwise. */
  lemma NextMessageIdOfCounter(n: int)
    requires MIN32 <= n < MAX32
    ensures NextMessageId(None) == Returned(1)
    ensures NextMessageId(Some(IntToString(n))) == Returned(n + 1)
  {
    ParseIntToString(n);
  }

  /** Entries are numbered from 1: the index a fresh topic assigns is positive, and the index
      after a stored counter `n` is positive exactly when `n` is in [0, 2^31 - 1); at 2^31 - 1
      the 32-bit `++` wraps to -2^31. */
  lemma NextMessageIdIsBigThan0(n: int)
    requires IsInt32(n)
    ensures UtilCompare.IsBigThan0(Some(NextMessageId(None).value))
    ensures NextMessageId(Some(IntToString(n))).Returned?
    ensures UtilCompare.IsBigThan0(Some(NextMessageId(Some(IntToString(n))).value)) <==> 0 <= n < MAX32
  {
    ParseIntToString(n);
  }

  /** The commands one publish queues: the counter set to `n` with no time-to-live, then the
      entry at `n` with the caller's time-to-live. */
  function AppendCommands(topicPrefix: string, n: int, text: string, seconds: int): seq<RedisCache.Command>
  {
    [RedisCache.SetCmd(CounterKey(topicPrefix), IntToString(n))] + RedisCache.SetCommands(EntryKey(topicPrefix, n), text, seconds)
  }

  /** The server after a committed publish of `text` at index `n`. */
  function Appended(s: RedisCache.KV, topicPrefix: string, n: int, text: string, seconds: int): RedisCache.KV
  {
    RedisCache.Run(s, AppendCommands(topicPrefix, n, text, seconds)).0
  }

  /** A committed publish sets the counter to exactly `n` and the entry at that same `n`, the
      counter without a time-to-live and the entry with the caller's, and touches no other key. */
  lemma AppendedState(s: RedisCache.KV, topicPrefix: string, n: int, text: string, seconds: int)
    ensures var t := Appended(s, topicPrefix, n, text, seconds);
      && t.data == s.data[CounterKey(topicPrefix) := IntToString(n)][EntryKey(topicPrefix, n) := text]
      && CounterKey(topicPrefix) !in t.expiry
      && (seconds > 0 ==> EntryKey(topicPrefix, n) in t.expiry && t.expiry[EntryKey(topicPrefix, n)] == seconds)
      && (seconds <= 0 ==> EntryKey(topicPrefix, n) !in t.expiry)
      && (forall k :: k != CounterKey(topicPrefix) && k != EntryKey(topicPrefix, n) ==>
            (k in t.expiry <==> k in s.expiry) && (k in s.expiry ==> t.expiry[k] == s.expiry[k]))
  {
    SlotKindsDistinct(topicPrefix, n, "");
    var c, e := CounterKey(topicPrefix), EntryKey(topicPrefix, n);
    var cmds := AppendCommands(topicPrefix, n, text, seconds);
    var s1 := RedisCache.Step(s, cmds[0]).0;
    var s2 := RedisCache.Step(s1, cmds[1]).0;
    assert RedisCache.Run(s, cmds).0 == RedisCache.Run(s1, cmds[1..]).0;
    assert cmds[1..][0] == cmds[1] && cmds[1..][1..] == cmds[2..];
    assert RedisCache.Run(s1, cmds[1..]).0 == RedisCache.Run(s2, cmds[2..]).0;
    if seconds > 0 {
      assert cmds[2..][0] == cmds[2] && cmds[2..][1..] == [];
      assert RedisCache.Run(s2, cmds[2..]).0 == RedisCache.Step(s2, cmds[2]).0;
    } else {
      assert cmds[2..] == [];
    }
  }

  /** The server after one uncontended publish on a connected store. */
  function PublishOnce(s: RedisCache.KV, topicPrefix: string, m: Message, seconds: int): RedisCache.KV
  {
    match NextMessageId(RedisCache.Lookup(true, s.data, CounterKey(topicPrefix)))
    case Returned(n) => Appended(s, topicPrefix, n, Encode(m), seconds)
    case Threw => s
  }

  /** The server after uncontended publishes of `ms`, in order. */
  function PublishAll(s: RedisCache.KV, topicPrefix: string, ms: seq<Message>, seconds: int): RedisCache.KV
    decreases |ms|
  {
    if ms == [] then s
    else PublishOnce(PublishAll(s, topicPrefix, ms[..|ms| - 1], seconds), topicPrefix, ms[|ms| - 1], seconds)
  }

  /** Appending at index `n` leaves the entry at any lower positive index as it was. */
  lemma AppendKeepsEarlier(s: RedisCache.KV, topicPrefix: string, n: int, text: string, seconds: int, i: int)
    requires 1 <= i < n
    ensures var t := Appended(s, topicPrefix, n, text, seconds);
      && (EntryKey(topicPrefix, i) in t.data <==> EntryKey(topicPrefix, i) in s.data)
      && (EntryKey(topicPrefix, i) in s.data ==> t.data[EntryKey(topicPrefix, i)] == s.data[EntryKey(topicPrefix, i)])
  {
    AppendedState(s, topicPrefix, n, text, seconds);
    EntryKeysDistinct(topicPrefix, i, n);
    SlotKindsDistinct(topicPrefix, i, "");
  }

  /** On a topic without a counter, N uncontended publishes assign exactly the indices 1..N:
      the counter ends at N and entry i holds the i-th message. */
  lemma {:induction false} PublishAllNumbersFromOne(s: RedisCache.KV, topicPrefix: string, ms: seq<Message>, seconds: int)
    requires CounterKey(topicPrefix) !in s.data
    requires |ms| <= MAX32
    ensures var t := PublishAll(s, topicPrefix, ms, seconds);
      && (ms == [] ==> t == s)
      && (ms != [] ==> CounterKey(topicPrefix) in t.data && t.data[CounterKey(topicPrefix)] == IntToString(|ms|))
      && forall i :: 1 <= i <= |ms| ==>
           EntryKey(topicPrefix, i) in t.data && t.data[EntryKey(topicPrefix, i)] == Encode(ms[i - 1])
    decreases |ms|
  {
    if ms != [] {
      var c := CounterKey(topicPrefix);
      var prefix := ms[..|ms| - 1];
      var n := |ms|;
      PublishAllNumbersFromOne(s, topicPrefix, prefix, seconds);
      var t0 := PublishAll(s, topicPrefix, prefix, seconds);
      if prefix == [] {
        assert RedisCache.Lookup(true, t0.data, c) == None;
      } else {
        assert RedisCache.Lookup(true, t0.data, c) == Some(IntToString(n - 1));
        NextMessageIdOfCounter(n - 1);
      }
      assert NextMessageId(RedisCache.Lookup(true, t0.data, c)) == Returned(n);
      var t := Appended(t0, topicPrefix, n, Encode(ms[n - 1]), seconds);
      AppendedState(t0, topicPrefix, n, Encode(ms[n - 1]), seconds);
      assert PublishAll(s, topicPrefix, ms, seconds) == t;
      forall i | 1 <= i <= n
        ensures EntryKey(topicPrefix, i) in t.data && t.data[EntryKey(topicPrefix, i)] == Encode(ms[i - 1])
      {
        if i < n {
          AppendKeepsEarlier(t0, topicPrefix, n, Encode(ms[n - 1]), seconds, i);
          assert prefix[i - 1] == ms[i - 1];
        }
      }
    }
  }

  /** Uncontended publishes write only the counter and the entries at the indices they assign:
      every other key keeps its value. */
  lemma {:induction false} PublishAllFrame(s: RedisCache.KV, topicPrefix: string, ms: seq<Message>, seconds: int, k: string)
    requires CounterKey(topicPrefix) !in s.data && |ms| <= MAX32
    requires k != CounterKey(topicPrefix) && forall i :: 1 <= i <= |ms| ==> k != EntryKey(topicPrefix, i)
    ensures var t := PublishAll(s, topicPrefix, ms, seconds);
      && (k in t.data <==> k in s.data)
      && (k in s.data ==> t.data[k] == s.data[k])
    decreases |ms|
  {
    if ms != [] {
      var n := |ms|;
      var prefix := ms[..n - 1];
      PublishAllFrame(s, topicPrefix, prefix, seconds, k);
      PublishAllNumbersFromOne(s, topicPrefix, prefix, seconds);
      var t0 := PublishAll(s, topicPrefix, prefix, seconds);
      if prefix != [] {
        NextMessageIdOfCounter(n - 1);
      }
      assert NextMessageId(RedisCache.Lookup(true, t0.data, CounterKey(topicPrefix))) == Returned(n);
      AppendedState(t0, topicPrefix, n, Encode(ms[n - 1]), seconds);
    }
  }

  class Producer {
    /** The topic counter queue and the topic entry queue. */
    const countRedisQueue: RedisQueue.RedisQueue
    const messageRedisQueue: RedisQueue.RedisQueue

    ghost predicate Valid()
      reads countRedisQueue, messageRedisQueue
    {
      && countRedisQueue != messageRedisQueue
      && countRedisQueue.key == None && countRedisQueue.sb == None
      && messageRedisQueue.key == None && messageRedisQueue.sb == None
      && countRedisQueue.cacheType == TOPIC_COUNT_CACHETYPE
      && messageRedisQueue.cacheType == TOPIC_MESSAGE_CACHETYPE
      && messageRedisQueue.topicPrefix == countRedisQueue.topicPrefix
    }

    function Prefix(): string
    {
      countRedisQueue.topicPrefix
    }

    /** `Producer(topic)`. */
    constructor (topic: string)
      ensures Valid() && Prefix() == TopicPrefix(topic)
      ensures fresh(countRedisQueue) && fresh(messageRedisQueue)
    {
      countRedisQueue := new RedisQueue.RedisQueue(topic, TOPIC_COUNT_CACHETYPE);
      messageRedisQueue := new RedisQueue.RedisQueue(topic, TOPIC_MESSAGE_CACHETYPE);
    }

    /** `getNextMessageId()`: read the counter on a pooled connection, add one. */
    method GetNextMessageId(store: RedisCache.Store) returns (a: Attempt<int>)
      requires Valid()
      modifies countRedisQueue
      ensures Valid()
      ensures a == NextMessageId(RedisCache.Lookup(store.up, store.data, CounterKey(Prefix())))
    {
      var counter := countRedisQueue.Get(store);
      match counter
      case None =>
        a := Returned(1);
      case Some(s) =>
        match ParseInt(s)
        case Some(n) => a := Returned(Wrap32(n + 1));
        case None => a := Threw;
    }

    /** The private `exec(message, seconds)`: on one connection, watch the counter, compute the
        next index, queue the counter write (no time-to-live) and the entry write (the caller's
        time-to-live), and exec. `rival`, when present, is a value another client writes to the
        counter between the watch and the exec. */
    method Exec(store: RedisCache.Store, text: string, seconds: int, rival: Option<string>)
      returns (r: Option<seq<RedisCache.Reply>>)
      requires Valid()
      modifies store, countRedisQueue, messageRedisQueue
      ensures Valid() && store.up == old(store.up)
      ensures var next := NextMessageId(RedisCache.Lookup(old(store.up), old(store.data), CounterKey(Prefix())));
        && (r.Some? <==> old(store.up) && next.Returned? && rival.None?)
        && (r.Some? ==> store.State() == Appended(old(store.State()), Prefix(), next.value, text, seconds))
        && (old(store.up) && next.Returned? && rival.Some? ==>
              store.State() == RedisCache.Run(old(store.State()), RedisCache.SetCommands(CounterKey(Prefix()), rival.value, 0)).0)
        && (r.None? && rival.None? ==> store.State() == old(store.State()))
        && (!old(store.up) || next.Threw? ==> store.State() == old(store.State()))
    {
      if !store.up {
        return RedisCache.ExecOnSameRedisConn(false, Threw);
      }
      var counterKey := CounterKey(Prefix());
      var transaction := new RedisCache.Transaction(store);
      var redisTransaction := new RedisQueue.RedisTransaction.InitTransaction(transaction);
      var watchReply := redisTransaction.Watch(countRedisQueue);
      assert transaction.watched == map[counterKey := store.Version(counterKey)];
      var next := GetNextMessageId(store);
      if next.Threw? {
        return RedisCache.ExecOnSameRedisConn(true, Threw);
      }
      var n := next.value;
      redisTransaction.Multi();
      assert countRedisQueue.FullKey() == counterKey;
      var queued := redisTransaction.Set(countRedisQueue, IntToString(n));
      var counterSet := [RedisCache.SetCmd(counterKey, IntToString(n))];
      assert [] + counterSet == counterSet;
      assert transaction.queued == Some(counterSet);
      var q := messageRedisQueue.CatInt(n);
      assert messageRedisQueue.FullKey() == EntryKey(Prefix(), n) by {
        RedisQueue.CatIntIsOneShot(None, n);
      }
      queued := redisTransaction.SetWithExpire(messageRedisQueue, text, seconds);
      RedisQueue.CatIntIsOneShot(None, n);
      assert transaction.queued == Some(AppendCommands(Prefix(), n, text, seconds));
      if rival.Some? {
        var reply := store.Set(counterKey, rival.value, 0);
        assert !RedisCache.WatchHolds(transaction.watched, store.version);
      }
      var replies := redisTransaction.Exec();
      r := RedisCache.ExecOnSameRedisConn(true, Returned(replies));
    }

    /** `publish(message, seconds)`: true exactly when the single transaction attempt committed. */
    method Publish(store: RedisCache.Store, message: Message, seconds: int, rival: Option<string>) returns (ok: bool)
      requires Valid()
      modifies store, countRedisQueue, messageRedisQueue
      ensures Valid() && store.up == old(store.up)
      ensures var next := NextMessageId(RedisCache.Lookup(old(store.up), old(store.data), CounterKey(Prefix())));
        && (ok <==> old(store.up) && next.Returned? && rival.None?)
        && (ok ==> store.State() == Appended(old(store.State()), Prefix(), next.value, Encode(message), seconds))
        && (!ok && rival.None? ==> store.State() == old(store.State()))
        && (old(store.up) && next.Returned? && rival.Some? ==>
              store.State() == RedisCache.Run(old(store.State()), RedisCache.SetCommands(CounterKey(Prefix()), rival.value, 0)).0)
    {
      var r := Exec(store, Encode(message), seconds, rival);
      ok := r != None;
    }

    /** `publish(message)`: `publish(message, DEFAULT_EXPIRE_TIME)`. */
    method PublishDefault(store: RedisCache.Store, message: Message, rival: Option<string>) returns (ok: bool)
      requires Valid()
      modifies store, countRedisQueue, messageRedisQueue
      ensures Valid() && store.up == old(store.up)
      ensures var next := NextMessageId(RedisCache.Lookup(old(store.up), old(store.data), CounterKey(Prefix())));
        && (ok <==> old(store.up) && next.Returned? && rival.None?)
        && (ok ==> store.State() == Appended(old(store.State()), Prefix(), next.value, Encode(message), 86400))
        && (!ok && rival.None? ==> store.State() == old(store.State()))
        && (old(store.up) && next.Returned? && rival.Some? ==>
              store.State() == RedisCache.Run(old(store.State()), RedisCache.SetCommands(CounterKey(Prefix()), rival.value, 0)).0)
    {
      ok := Publish(store, message, DEFAULT_EXPIRE_TIME, rival);
    }
  }

  /** A publish that lost the race leaves no phantom state: the counter holds only the rival's
      value and no entry exists at the index this publish would have used, unless one was there. */
  lemma AbortedPublishWritesNothing(s: RedisCache.KV, topicPrefix: string, rivalValue: string, n: int)
    ensures var t := RedisCache.Run(s, RedisCache.SetCommands(CounterKey(topicPrefix), rivalValue, 0)).0;
      && t.data == s.data[CounterKey(topicPrefix) := rivalValue]
      && (EntryKey(topicPrefix, n) in t.data <==> EntryKey(topicPrefix, n) in s.data)
  {
    SlotKindsDistinct(topicPrefix, n, "");
    var cmds := RedisCache.SetCommands(CounterKey(topicPrefix), rivalValue, 0);
    assert cmds == [RedisCache.SetCmd(CounterKey(topicPrefix), rivalValue)];
    assert cmds[1..] == [];
  }
}
