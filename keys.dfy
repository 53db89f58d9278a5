/** Store-key addressing: `RedisCache.generateFullKey` and the key parts the queue uses. */
module Keys {
  import opened JavaInt

  /** Namespace in front of every topic name (`RedisQueue.PREFIX`). */
  const PREFIX: string := "redisMq:"
  /** Key part used when a queue has neither a fixed key nor a pending `cat` (`RedisQueue.REDIS_KEY`). */
  const REDIS_KEY: string := "all"
  /** Slot kinds: topic entries, topic counter, subscriber cursors. */
  const TOPIC_MESSAGE_CACHETYPE: string := "queueId_message"
  const TOPIC_COUNT_CACHETYPE: string := "key_count"
  const TOPIC_SUBSCRIBERS_CACHETYPE: string := "key_subscribers"

  /** `PREFIX + topic`. */
  function TopicPrefix(topic: string): (r: string)
    ensures |r| == |PREFIX| + |topic| && r[..|PREFIX|] == "redisMq:" && r[|PREFIX|..] == topic
  {
    PREFIX + topic
  }

  /** `generateFullKey(prefix, cacheType, key)`: the pattern "{0}:{1}:{2}". */
  function GenerateFullKey(prefix: string, cacheType: string, key: string): string
  {
    prefix + ":" + cacheType + ":" + key
  }

  /** `generateFullKey(prefix, cacheType1, cacheType2, key)`: the pattern "{0}:{1}:{2}:{3}". */
  function GenerateFullKey4(prefix: string, cacheType1: string, cacheType2: string, key: string): string
  {
    prefix + ":" + cacheType1 + ":" + cacheType2 + ":" + key
  }

  /** `generateFullKey(cacheType, key)`, where `defaultPrefix` is the configured `DEFAULT_KEY_PREFIX`. */
  function GenerateFullKeyDefault(defaultPrefix: string, cacheType: string, key: string): string
  {
    GenerateFullKey(defaultPrefix, cacheType, key)
  }

  /** A three-part key is its parts with one colon between each neighbouring pair. */
  lemma FullKeyParts(prefix: string, cacheType: string, key: string)
    ensures var r := GenerateFullKey(prefix, cacheType, key);
      && |r| == |prefix| + |cacheType| + |key| + 2
      && r[..|prefix|] == prefix
      && r[|prefix|] == ':'
      && r[|prefix| + 1..|prefix| + 1 + |cacheType|] == cacheType
      && r[|prefix| + 1 + |cacheType|] == ':'
      && r[|prefix| + 2 + |cacheType|..] == key
  {
  }

  /** The four-part key joins all four parts with colons: it is the three-part key whose last
      part is `cacheType2 + ":" + key`. */
  lemma FourPartJoin(prefix: string, cacheType1: string, cacheType2: string, key: string)
    ensures GenerateFullKey4(prefix, cacheType1, cacheType2, key)
         == GenerateFullKey(prefix, cacheType1, cacheType2 + ":" + key)
  {
  }

  /** Within one prefix and slot kind, distinct key parts give distinct store keys. */
  lemma FullKeyInjective(prefix: string, cacheType: string, key1: string, key2: string)
    requires GenerateFullKey(prefix, cacheType, key1) == GenerateFullKey(prefix, cacheType, key2)
    ensures key1 == key2
  {
    var r := GenerateFullKey(prefix, cacheType, key1);
    FullKeyParts(prefix, cacheType, key1);
    FullKeyParts(prefix, cacheType, key2);
  }

  /** The counter key of a topic, given its prefix (`redisMq:` + topic). */
  function CounterKey(topicPrefix: string): string
  {
    GenerateFullKey(topicPrefix, TOPIC_COUNT_CACHETYPE, REDIS_KEY)
  }

  /** The key of entry `n` of a topic. */
  function EntryKey(topicPrefix: string, n: int): string
  {
    GenerateFullKey(topicPrefix, TOPIC_MESSAGE_CACHETYPE, IntToString(n))
  }

  /** The cursor key of a subscriber whose queue key part is `subscriberKey`. */
  function CursorKey(topicPrefix: string, subscriberKey: string): string
  {
    GenerateFullKey(topicPrefix, TOPIC_SUBSCRIBERS_CACHETYPE, subscriberKey)
  }

  /** The three slot kinds of one topic never share a store key. */
  lemma SlotKindsDistinct(topicPrefix: string, n: int, subscriberKey: string)
    ensures CounterKey(topicPrefix) != EntryKey(topicPrefix, n)
    ensures CounterKey(topicPrefix) != CursorKey(topicPrefix, subscriberKey)
    ensures EntryKey(topicPrefix, n) != CursorKey(topicPrefix, subscriberKey)
  {
    var p := |topicPrefix|;
    FullKeyParts(topicPrefix, TOPIC_COUNT_CACHETYPE, REDIS_KEY);
    FullKeyParts(topicPrefix, TOPIC_MESSAGE_CACHETYPE, IntToString(n));
    FullKeyParts(topicPrefix, TOPIC_SUBSCRIBERS_CACHETYPE, subscriberKey);
    assert CounterKey(topicPrefix)[p + 1] == 'k' && EntryKey(topicPrefix, n)[p + 1] == 'q';
    assert CounterKey(topicPrefix)[p + 5] == 'c' && CursorKey(topicPrefix, subscriberKey)[p + 5] == 's';
    assert CursorKey(topicPrefix, subscriberKey)[p + 1] == 'k';
  }

  /** Distinct indices of one topic are stored under distinct keys. */
  lemma EntryKeysDistinct(topicPrefix: string, m: int, n: int)
    requires m != n
    ensures EntryKey(topicPrefix, m) != EntryKey(topicPrefix, n)
  {
    if EntryKey(topicPrefix, m) == EntryKey(topicPrefix, n) {
      FullKeyInjective(topicPrefix, TOPIC_MESSAGE_CACHETYPE, IntToString(m), IntToString(n));
      IntToStringInjective(m, n);
    }
  }
}
