/** `RedisQueue`: one slot kind of one topic, with an optional fixed key part and a one-shot key
    part set by `cat` and cleared by the next `key()`; and its `RedisTransaction` wrapper, which
    addresses the store's transaction by queue. */
module RedisQueue {
  import opened Wrappers
  import opened JavaInt
  import opened UtilCompare
  import opened Keys
  import RedisCache

  /** The key part `key()` returns for a fixed key `key` and a pending `cat` value `sb`. */
  function KeyOf(key: Option<string>, sb: Option<string>): string
  {
    if !IsEmpty(key) then key.value
    else if IsEmpty(sb) then REDIS_KEY
    else sb.value
  }

  /** The pending `cat` value after `key()`: cleared only when it was the one returned. */
  function SbAfter(key: Option<string>, sb: Option<string>): Option<string>
  {
    if !IsEmpty(key) || IsEmpty(sb) then sb else None
  }

  /** A fixed key wins over any pending `cat`, and `key()` leaves the pending value alone. */
  lemma FixedKeyWins(key: Option<string>, sb: Option<string>)
    requires !IsEmpty(key)
    ensures KeyOf(key, sb) == key.value && SbAfter(key, sb) == sb
  {
  }

  /** With no fixed key and nothing pending, the key part is "all". */
  lemma DefaultKey(key: Option<string>, sb: Option<string>)
    requires IsEmpty(key) && IsEmpty(sb)
    ensures KeyOf(key, sb) == "all" && SbAfter(key, sb) == sb
  {
  }

  /** `cat(n)` then `key()` twice on a queue without a fixed key: the first call yields the
      decimal form of `n` and clears it, the second yields "all". */
  lemma CatIntIsOneShot(key: Option<string>, n: int)
    requires IsEmpty(key)
    ensures KeyOf(key, Some(IntToString(n))) == IntToString(n)
    ensures SbAfter(key, Some(IntToString(n))) == None
    ensures KeyOf(key, SbAfter(key, Some(IntToString(n)))) == REDIS_KEY
  {
    var s := IntToString(n);
    IntToStringStart(n);
    IsEmptyIffBlank(Some(s));
    assert !IsTrimmed(s[0]);
  }

  class RedisQueue {
    const topicPrefix: string
    const cacheType: string
    const key: Option<string>
    var sb: Option<string>

    /** The store key the next `key()`-consuming operation addresses. */
    function FullKey(): string
      reads this
    {
      GenerateFullKey(topicPrefix, cacheType, KeyOf(key, sb))
    }

    /** `RedisQueue(topic, cacheType)`. */
    constructor (topic: string, cacheType: string)
      ensures topicPrefix == TopicPrefix(topic) && this.cacheType == cacheType
      ensures key == None && sb == None
    {
      topicPrefix := PREFIX + topic;
      this.cacheType := cacheType;
      key := None;
      sb := None;
    }

    /** `RedisQueue(topic, cacheType, key)`. */
    constructor WithKey(topic: string, cacheType: string, key: Option<string>)
      ensures topicPrefix == TopicPrefix(topic) && this.cacheType == cacheType
      ensures this.key == key && sb == None
    {
      topicPrefix := PREFIX + topic;
      this.cacheType := cacheType;
      this.key := key;
      sb := None;
    }

    /** `key()`: the fixed key if there is one; else "all" when nothing is pending; else the
        pending value, which it clears. */
    method Key() returns (k: string)
      modifies this
      ensures k == KeyOf(key, old(sb)) && sb == SbAfter(key, old(sb))
    {
      if !IsEmpty(key) {
        return key.value;
      }
      if IsEmpty(sb) {
        return REDIS_KEY;
      }
      k := sb.value;
      sb := None;
    }

    /** `cat(String)`: remember a one-shot key part and return the same queue. */
    method Cat(s: Option<string>) returns (q: RedisQueue)
      modifies this
      ensures q == this && sb == s
    {
      sb := s;
      q := this;
    }

    /** `cat(Integer)`: remember the decimal form of `n` and return the same queue. */
    method CatInt(n: int) returns (q: RedisQueue)
      modifies this
      ensures q == this && sb == Some(IntToString(n))
    {
      sb := Some(IntToString(n));
      q := this;
    }

    /** `get()`: read the value at this queue's key, consuming `key()`. */
    method Get(store: RedisCache.Store) returns (r: Option<string>)
      modifies this
      ensures sb == SbAfter(key, old(sb))
      ensures r.Some? <==> store.up && old(FullKey()) in store.data
      ensures r.Some? ==> r.value == store.data[old(FullKey())]
    {
      var k := Key();
      r := store.Get(GenerateFullKey(topicPrefix, cacheType, k));
    }

    /** `set(value, expireSeconds)`: write at this queue's key, consuming `key()`. */
    method Set(store: RedisCache.Store, value: string, expireSeconds: int) returns (r: string)
      modifies this, store
      ensures sb == SbAfter(key, old(sb)) && store.up == old(store.up)
      ensures r == if store.up then "OK" else "FAIL"
      ensures store.State() == if store.up
        then RedisCache.Run(old(store.State()), RedisCache.SetCommands(old(FullKey()), value, expireSeconds)).0
        else old(store.State())
    {
      var k := Key();
      r := store.Set(GenerateFullKey(topicPrefix, cacheType, k), value, expireSeconds);
    }
  }

  /** `RedisQueue.RedisTransaction`: the store transaction addressed by queue; every call but
      `multi`/`exec` consumes the queue's `key()` exactly once. */
  class RedisTransaction {
    const transaction: RedisCache.Transaction

    /** `initTransaction(transaction)`. */
    constructor InitTransaction(transaction: RedisCache.Transaction)
      ensures this.transaction == transaction
    {
      this.transaction := transaction;
    }

    /** `watch(queue)`. */
    method Watch(q: RedisQueue) returns (r: Option<string>)
      modifies transaction, q
      ensures q.sb == SbAfter(q.key, old(q.sb))
      ensures transaction.watched == old(transaction.watched)[old(q.FullKey()) := transaction.store.Version(old(q.FullKey()))]
      ensures transaction.queued == old(transaction.queued)
    {
      var k := q.Key();
      r := transaction.Watch(GenerateFullKey(q.topicPrefix, q.cacheType, k));
    }

    /** `set(queue, value, seconds)`. */
    method SetWithExpire(q: RedisQueue, value: string, seconds: int) returns (queuedOk: bool)
      modifies transaction, q
      ensures q.sb == SbAfter(q.key, old(q.sb))
      ensures transaction.watched == old(transaction.watched) && queuedOk == old(transaction.queued).Some?
      ensures transaction.queued == if old(transaction.queued).None? then None
        else Some(old(transaction.queued).value + RedisCache.SetCommands(old(q.FullKey()), value, seconds))
    {
      var k := q.Key();
      queuedOk := transaction.Set(GenerateFullKey(q.topicPrefix, q.cacheType, k), value, seconds);
    }

    /** `set(queue, value)`: the same with time-to-live 0, so no EXPIRE is queued. */
    method Set(q: RedisQueue, value: string) returns (queuedOk: bool)
      modifies transaction, q
      ensures q.sb == SbAfter(q.key, old(q.sb))
      ensures transaction.watched == old(transaction.watched) && queuedOk == old(transaction.queued).Some?
      ensures transaction.queued == if old(transaction.queued).None? then None
        else Some(old(transaction.queued).value + [RedisCache.SetCmd(old(q.FullKey()), value)])
    {
      assert RedisCache.SetCommands(q.FullKey(), value, 0) == [RedisCache.SetCmd(q.FullKey(), value)];
      queuedOk := SetWithExpire(q, value, 0);
    }

    /** `incr(queue)`. */
    method Incr(q: RedisQueue) returns (queuedOk: bool)
      modifies transaction, q
      ensures q.sb == SbAfter(q.key, old(q.sb))
      ensures transaction.watched == old(transaction.watched) && queuedOk == old(transaction.queued).Some?
      ensures transaction.queued == if old(transaction.queued).None? then None
        else Some(old(transaction.queued).value + [RedisCache.IncrCmd(old(q.FullKey()))])
    {
      var k := q.Key();
      queuedOk := transaction.Incr(GenerateFullKey(q.topicPrefix, q.cacheType, k));
    }

    /** `multi()`. */
    method Multi()
      modifies transaction
      ensures transaction.queued == Some([]) && transaction.watched == old(transaction.watched)
    {
      transaction.Multi();
    }

    /** `exec()`. */
    method Exec() returns (r: Option<seq<RedisCache.Reply>>)
      modifies transaction, transaction.store
      ensures old(transaction.queued).None? ==> r == None && transaction.store.State() == old(transaction.store.State())
      ensures old(transaction.queued).Some? && !RedisCache.WatchHolds(old(transaction.watched), old(transaction.store.version)) ==>
                r == None && transaction.store.State() == old(transaction.store.State())
      ensures old(transaction.queued).Some? && RedisCache.WatchHolds(old(transaction.watched), old(transaction.store.version)) ==>
                r == Some(RedisCache.Run(old(transaction.store.State()), old(transaction.queued).value).1)
                && transaction.store.State() == RedisCache.Run(old(transaction.store.State()), old(transaction.queued).value).0
      ensures transaction.store.up == old(transaction.store.up) && transaction.queued == None
      ensures old(transaction.queued).Some? ==> transaction.watched == map[]
    {
      r := transaction.Exec();
    }
  }
}
