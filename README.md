# redismq: a verified model of the topic log, its producer and its subscribers

redismq is a small publish/subscribe queue built on a Redis key-value store. Each topic
has three kinds of keys:

- a counter key (`redisMq:<topic>:key_count:all`) that holds the number of messages
  published so far;
- one entry key per message (`redisMq:<topic>:queueId_message:<n>`), numbered from 1;
- one cursor key per subscriber (`redisMq:<topic>:key_subscribers:<subscriber>`) that holds
  the index of the last entry that subscriber has read.

A **producer** publishes under an optimistic transaction. It watches the counter and reads it.
It then queues a SET of the counter to the next index (no time-to-live) and a SET of the entry
at that index (with the caller's time-to-live, one day by default), and execs. The attempt is
made once and never retried, so a concurrent change of the counter makes `publish` return false.

A **consumer** reads in a loop on one connection. Each pass does the following:

1. It watches its cursor.
2. It computes the backlog `size - cursor` as a 32-bit `int`. A missing cursor is first created
   at `size - 1`, so a new subscriber starts at the newest entry.
3. It reads the entry after the cursor.
4. It increments the cursor in a MULTI/EXEC.

A pass whose exec was aborted, or whose entry is gone (expired), goes round again. Otherwise the
loop returns the decoded entry, or null when nothing is unread. `consume(callback)` repeats
this until it gets null.

The store is modelled in memory:

- the `RedisCache.Store` class holds the values, the keys that carry a time-to-live, a version
  per key (which WATCH compares), and whether a pooled connection can be had;
- `RedisCache.Transaction` is the connection's WATCH/MULTI/EXEC state;
- `RedisQueue.RedisQueue` is a queue of one slot kind, with its one-shot `cat` key part;
- `Producer.Producer` and `Consumer.Consumer` are the two clients.

The model also covers the Java semantics the code relies on: 32-bit wrap-around of `int`
arithmetic, `Integer.parseInt`/`valueOf` (whose exception becomes `Threw`),
`Integer.toString`, `String.trim`, and `execOnSameRedisConn`, which turns an exception into null.
Concurrency is modelled by explicit rival parameters:

- a value another client writes to the counter between a producer's watch and its exec;
- for each pass of the consumer loop, whether another reader sharing the same cursor increments
  it before the exec.

The main results:

- N uncontended publishes on a fresh topic number the entries 1..N in order and leave the
  counter at N (`PublishAllNumbersFromOne`). A lost race writes nothing but the rival's counter
  (`Producer.Exec`, `AbortedPublishWritesNothing`).
- Every message a read returns is the decoded entry at the index its cursor now holds
  (`ReadUntilEnd`). A rival's increment always aborts our exec (`AdvanceLosesToRival`). The
  read loop terminates, because every pass that goes round moves the cursor strictly nearer
  the end (`PassProgress`).
- Alone, `consume(callback)` hands the callback exactly the subscriber's remaining deliveries,
  in order and at strictly increasing indices (`ConsumeAll`, `DeliveriesInOrder`).
- A subscriber whose cursor was made on an empty topic (stored as -1, or as 0 after its first
  read stepped over the missing entry 0) and who then drains the topic after N uncontended
  publishes receives exactly those N messages, in publish order. From -1 this needs
  N < 2^31 - 1 (`EarlySubscriberReceivesAll`).

Behaviour of the code worth knowing:

- A stored entry that does not decode (the JSON parser throws, or yields null) ends the read
  with null after the cursor has already moved past it. `consume(callback)` then stops. The
  entry is not skipped with the loop carrying on (`Delivery`, `Consumer.ReadUntilEnd`).
- The backlog `size - cursor` is a 32-bit subtraction. With a cursor of -1 and a topic of
  2^31 - 1 messages it wraps to a negative number, and the read reports nothing although
  every entry is unread (`BacklogWraps`).
- Creating a missing cursor inside the read goes through a separate pooled connection, after
  the cursor has been watched. The cursor's version moves, so a new subscriber's first exec
  always aborts once and the pass goes round (`AfterLastReadFrame`, `SettledCursor`).

## Model

| member | source | states |
|---|---|---|
| JavaInt.Wrap32 | mq/src/main/java/com/redis/mq/mymq/Consumer.java:135-137 | the result of Java `int` arithmetic lies in the 32-bit range and equals the exact value whenever that fits |
| JavaInt.Wrap32Congruent | mq/src/main/java/com/redis/mq/mymq/Consumer.java:135-137 | the wrapped value differs from the exact one by a multiple of 2^32 (two's complement) |
| JavaInt.ParseInt | mq/src/main/java/com/redis/mq/mymq/Producer.java:70-78 | `Integer.parseInt` only ever returns a 32-bit value; text that is not a signed decimal in range is an exception |
| JavaInt.ParseIntToString | mq/src/main/java/com/redis/mq/mymq/Producer.java:74 | parsing the decimal form of any 32-bit value gives that value back |
| JavaInt.ParseIntOutOfRange | mq/src/main/java/com/redis/mq/mymq/Consumer.java:107 | the decimal form of a value outside 32 bits makes `Integer.valueOf` throw |
| JavaInt.RedisIntToString | mq/src/main/java/com/redis/mq/mymq/Consumer.java:90-94 | Redis INCR accepts as the current value every 64-bit value written by `Integer.toString` |
| JavaInt.IntToString | mq/src/main/java/com/redis/mq/mymq/RedisQueue.java:56-59 | `Integer.toString` and `key + ""`: decimal digits, a leading '-' for negatives; its properties are the round trips and injectivity below |
| JavaInt.IntToStringInjective | mq/src/main/java/com/redis/mq/mymq/RedisQueue.java:56-59 | distinct numbers give distinct key parts through `key + ""` |
| JavaInt.IntToStringStart | mq/src/main/java/com/redis/mq/mymq/RedisQueue.java:56-59 | the key part `cat(Integer)` stores is never blank: it starts with a sign or a digit |
| UtilCompare.IsEmpty | mq/src/main/java/com/redis/mq/utils/UtilCompare.java:47-49 | `isEmpty(String)`: null or nothing left after `trim()`; characterised by IsEmptyIffBlank |
| UtilCompare.IsEmptyIffBlank | mq/src/main/java/com/redis/mq/utils/UtilCompare.java:47-49 | `isEmpty(String)` holds exactly for null and for strings made only of characters `trim()` strips |
| UtilCompare.TrimEmptyIffBlank | mq/src/main/java/com/redis/mq/utils/UtilCompare.java:47-49 | `str.trim()` is "" exactly when every character is at most ' ' |
| UtilCompare.TrimStartShape | mq/src/main/java/com/redis/mq/utils/UtilCompare.java:47-49 | trimming the front removes a blank prefix and keeps a suffix that starts with a kept character |
| UtilCompare.TrimEndKeepsFirst | mq/src/main/java/com/redis/mq/utils/UtilCompare.java:47-49 | trimming the end of a string whose first character is kept never empties it |
| UtilCompare.TrimEndOfBlank | mq/src/main/java/com/redis/mq/utils/UtilCompare.java:47-49 | trimming the end of an all-blank string empties it |
| UtilCompare.IsEmptyCharSequence | mq/src/main/java/com/redis/mq/utils/UtilCompare.java:51-53 | `isEmpty(CharSequence)`: null or "" with no trimming; related to the String overload by CharSequenceEmptyIsStringEmpty |
| UtilCompare.CharSequenceEmptyIsStringEmpty | mq/src/main/java/com/redis/mq/utils/UtilCompare.java:51-53 | `isEmpty(CharSequence)` implies `isEmpty(String)` but not conversely: " " separates them |
| UtilCompare.IsNotEmpty | mq/src/main/java/com/redis/mq/utils/UtilCompare.java:55-57 | `isNotEmpty(String)` is the exact negation of `isEmpty(String)` |
| UtilCompare.IsJsonStrNotEmpty | mq/src/main/java/com/redis/mq/utils/UtilCompare.java:59-61 | `isJsonStrNotEmpty` is `isNotEmpty` minus the literal "null" |
| UtilCompare.IsEmptyCollection | mq/src/main/java/com/redis/mq/utils/UtilCompare.java:72-75 | `isEmpty(Collection)`: null or size 0; IsNotEmptyCollection is its exact negation |
| UtilCompare.IsNotEmptyCollection | mq/src/main/java/com/redis/mq/utils/UtilCompare.java:67-83 | the three `isNotEmpty` overloads for collections and arrays are the exact negation of `isEmpty(Collection)` |
| UtilCompare.IsEqual | mq/src/main/java/com/redis/mq/utils/UtilCompare.java:11-29 | null-tolerant equality holds exactly when both are null or both are present and equal |
| UtilCompare.IsStringEqualIgnoreCase | mq/src/main/java/com/redis/mq/utils/UtilCompare.java:31-45 | with a null argument the result is true exactly when both are null |
| UtilCompare.CharEqualIgnoreCaseIffLower | mq/src/main/java/com/redis/mq/utils/UtilCompare.java:42 | two characters match ignoring case exactly when their lower-case forms are equal |
| UtilCompare.EqualsIgnoreCaseIffLowerEqual | mq/src/main/java/com/redis/mq/utils/UtilCompare.java:42 | `equalsIgnoreCase` holds exactly when the lower-cased strings are equal |
| UtilCompare.IsWordSeparator | mq/src/main/java/com/redis/mq/utils/UtilCompare.java:85-87 | a character is not a separator exactly when it is an ASCII letter of either case or an apostrophe |
| Keys.TopicPrefix | mq/src/main/java/com/redis/mq/mymq/RedisQueue.java:28-31 | a topic prefix is "redisMq:" followed by the topic name |
| Keys.GenerateFullKey | mq/src/main/java/com/redis/mq/utils/RedisCache.java:1331-1333 | the pattern "{0}:{1}:{2}"; its layout is FullKeyParts and its injectivity FullKeyInjective |
| Keys.FullKeyParts | mq/src/main/java/com/redis/mq/utils/RedisCache.java:1331-1333 | a three-part key is prefix, colon, cache type, colon, key, at those exact positions |
| Keys.FullKeyInjective | mq/src/main/java/com/redis/mq/utils/RedisCache.java:1331-1333 | within one prefix and cache type, distinct key parts address distinct store keys |
| Keys.GenerateFullKey4 | mq/src/main/java/com/redis/mq/utils/RedisCache.java:1335-1337 | the pattern "{0}:{1}:{2}:{3}"; FourPartJoin reduces it to the three-part key |
| Keys.FourPartJoin | mq/src/main/java/com/redis/mq/utils/RedisCache.java:1335-1337 | the four-part key is the three-part key whose last part is `cacheType2:key` |
| Keys.GenerateFullKeyDefault | mq/src/main/java/com/redis/mq/utils/RedisCache.java:1339-1341 | the three-part key with the configured default prefix as its first part, defined through GenerateFullKey, so FullKeyParts and FullKeyInjective apply |
| Keys.SlotKindsDistinct | mq/src/main/java/com/redis/mq/mymq/Producer.java:13-14 | counter, entry and cursor keys of one topic never coincide |
| Keys.EntryKeysDistinct | mq/src/main/java/com/redis/mq/mymq/RedisQueue.java:56-59 | distinct indices of one topic are stored under distinct keys |
| Envelope.DecodeEncode | mq/src/main/java/com/redis/mq/mymq/Consumer.java:78 | parsing a published envelope's text gives the envelope back |
| Envelope.DecodeNull | mq/src/main/java/com/redis/mq/mymq/Consumer.java:78 | the texts "null" and "" decode to no message |
| RedisCache.IncrValue | mq/src/main/java/com/redis/mq/utils/RedisCache.java:1455-1465 | INCR stores 1 on an absent key and otherwise one more than the canonical integer stored |
| RedisCache.SetCommands | mq/src/main/java/com/redis/mq/utils/RedisCache.java:81-103 | `set` issues a SET, then an EXPIRE only when the time-to-live is positive |
| RedisCache.SetWithoutExpiry | mq/src/main/java/com/redis/mq/utils/RedisCache.java:81-103 | a SET without time-to-live stores the value, drops the key's time-to-live and moves its version |
| RedisCache.RunFrame | mq/src/main/java/com/redis/mq/utils/RedisCache.java:1476-1486 | an executed batch leaves value, time-to-live and version of every key it does not name unchanged |
| RedisCache.RunVersions | mq/src/main/java/com/redis/mq/utils/RedisCache.java:1410-1426 | versions never decrease and a SET of a key always moves its version, so WATCH notices every write |
| RedisCache.IncrOnlyTouches | mq/src/main/java/com/redis/mq/utils/RedisCache.java:1455-1465 | an INCR changes nothing but its own key |
| RedisCache.WatchOne | mq/src/main/java/com/redis/mq/utils/RedisCache.java:1410-1426 | a transaction watching one key commits exactly when that key's version is unchanged |
| RedisCache.ExecOnSameRedisConn | mq/src/main/java/com/redis/mq/utils/RedisCache.java:1283-1302 | the result is non-null exactly when a connection was had, the function did not throw and returned non-null, and then it is what the function returned |
| RedisCache.Store.Get | mq/src/main/java/com/redis/mq/utils/RedisCache.java:203-225 | null without a connection or on an absent key, else the stored value |
| RedisCache.Store.Set | mq/src/main/java/com/redis/mq/utils/RedisCache.java:81-103 | "FAIL" and no change without a connection, else "OK" and the store after SET (and EXPIRE when positive) |
| RedisCache.Store.Apply | mq/src/main/java/com/redis/mq/utils/RedisCache.java:1476-1486 | the store after running a batch in order is the batch semantics `Run`, with one reply per command |
| RedisCache.Transaction.constructor | mq/src/main/java/com/redis/mq/utils/RedisCache.java:1406-1408 | a new transaction on a connection watches nothing and has no open MULTI |
| RedisCache.Transaction.Watch | mq/src/main/java/com/redis/mq/utils/RedisCache.java:1410-1426 | WATCH records the key's current version and leaves the queue alone |
| RedisCache.Transaction.Multi | mq/src/main/java/com/redis/mq/utils/RedisCache.java:1467-1474 | MULTI opens an empty queue and keeps the watches |
| RedisCache.Transaction.Set | mq/src/main/java/com/redis/mq/utils/RedisCache.java:1436-1449 | queues the SET and, for a positive time-to-live, the EXPIRE; without an open MULTI nothing is queued |
| RedisCache.Transaction.Incr | mq/src/main/java/com/redis/mq/utils/RedisCache.java:1455-1465 | queues an INCR; without an open MULTI nothing is queued |
| RedisCache.Transaction.Exec | mq/src/main/java/com/redis/mq/utils/RedisCache.java:1476-1486 | null without MULTI; null and no change when a watched key moved; otherwise runs the queue atomically and returns its replies; the watches end |
| RedisQueue.KeyOf | mq/src/main/java/com/redis/mq/mymq/RedisQueue.java:39-49 | the key part `key()` returns; its cases are FixedKeyWins, DefaultKey and CatIntIsOneShot |
| RedisQueue.SbAfter | mq/src/main/java/com/redis/mq/mymq/RedisQueue.java:39-49 | the pending `cat` part after `key()`: cleared only when it was the one returned; same lemmas |
| RedisQueue.FixedKeyWins | mq/src/main/java/com/redis/mq/mymq/RedisQueue.java:39-42 | a queue with a fixed key always addresses it and keeps any pending `cat` |
| RedisQueue.DefaultKey | mq/src/main/java/com/redis/mq/mymq/RedisQueue.java:43-45 | with no fixed key and nothing pending the key part is "all" |
| RedisQueue.CatIntIsOneShot | mq/src/main/java/com/redis/mq/mymq/RedisQueue.java:39-59 | `cat(n)` then `key()` yields the decimal form of n once and "all" afterwards |
| RedisQueue.RedisQueue.constructor | mq/src/main/java/com/redis/mq/mymq/RedisQueue.java:28-31 | a queue without fixed key under "redisMq:" + topic, nothing pending |
| RedisQueue.RedisQueue.WithKey | mq/src/main/java/com/redis/mq/mymq/RedisQueue.java:33-37 | a queue with the given fixed key, nothing pending |
| RedisQueue.RedisQueue.Key | mq/src/main/java/com/redis/mq/mymq/RedisQueue.java:39-49 | returns the fixed key, else "all" when nothing non-blank is pending, else the pending part, which it clears |
| RedisQueue.RedisQueue.Cat | mq/src/main/java/com/redis/mq/mymq/RedisQueue.java:51-54 | sets the pending key part and returns the same queue |
| RedisQueue.RedisQueue.CatInt | mq/src/main/java/com/redis/mq/mymq/RedisQueue.java:56-59 | sets the pending key part to the decimal form and returns the same queue |
| RedisQueue.RedisQueue.Get | mq/src/main/java/com/redis/mq/mymq/RedisQueue.java:61-63 | reads the key `key()` names, consuming a pending part |
| RedisQueue.RedisQueue.Set | mq/src/main/java/com/redis/mq/mymq/RedisQueue.java:85-87 | writes at the key `key()` names, with the store's `set` semantics |
| RedisQueue.RedisTransaction.InitTransaction | mq/src/main/java/com/redis/mq/mymq/RedisQueue.java:100-102 | wraps the given store transaction |
| RedisQueue.RedisTransaction.Watch | mq/src/main/java/com/redis/mq/mymq/RedisQueue.java:108-110 | watches the queue's current key, consuming `key()` once |
| RedisQueue.RedisTransaction.SetWithExpire | mq/src/main/java/com/redis/mq/mymq/RedisQueue.java:112-114 | queues SET (and EXPIRE when positive) at the queue's key |
| RedisQueue.RedisTransaction.Set | mq/src/main/java/com/redis/mq/mymq/RedisQueue.java:104-106 | queues only a SET: time-to-live 0 queues no EXPIRE |
| RedisQueue.RedisTransaction.Incr | mq/src/main/java/com/redis/mq/mymq/RedisQueue.java:116-118 | queues an INCR of the queue's key |
| RedisQueue.RedisTransaction.Multi | mq/src/main/java/com/redis/mq/mymq/RedisQueue.java:120-122 | opens an empty queue, watches kept |
| RedisQueue.RedisTransaction.Exec | mq/src/main/java/com/redis/mq/mymq/RedisQueue.java:124-126 | the store transaction's EXEC: commit exactly when no watched key moved |
| Producer.NextMessageId | mq/src/main/java/com/redis/mq/mymq/Producer.java:70-78 | `getNextMessageId()` given the counter read; its values are NextMessageIdOfCounter and NextMessageIdIsBigThan0 |
| Producer.NextMessageIdOfCounter | mq/src/main/java/com/redis/mq/mymq/Producer.java:70-78 | the next index is 1 on a fresh topic and the stored counter plus one otherwise |
| Producer.NextMessageIdIsBigThan0 | mq/src/main/java/com/redis/mq/utils/UtilCompare.java:63-65 | `isBigThan0` holds of the index a fresh topic assigns, and of the index after a stored counter n exactly when 0 <= n < 2^31 - 1 (at 2^31 - 1 the 32-bit `++` wraps negative) |
| Producer.AppendedState | mq/src/main/java/com/redis/mq/mymq/Producer.java:52-64 | a committed publish sets the counter to n and entry n to the text, the counter without time-to-live and the entry with the caller's, and touches no other key |
| Producer.AppendKeepsEarlier | mq/src/main/java/com/redis/mq/mymq/Producer.java:52-64 | publishing at n leaves every entry below n as it was |
| Producer.PublishAllNumbersFromOne | mq/src/main/java/com/redis/mq/mymq/Producer.java:47-50 | N uncontended publishes on a fresh topic store the i-th message at index i and leave the counter at N |
| Producer.PublishAllFrame | mq/src/main/java/com/redis/mq/mymq/Producer.java:52-64 | publishes write only the counter and the entries they number |
| Producer.AbortedPublishWritesNothing | mq/src/main/java/com/redis/mq/mymq/Producer.java:55 | a publish that lost the race leaves only the rival's counter value and no entry of its own |
| Producer.Producer.constructor | mq/src/main/java/com/redis/mq/mymq/Producer.java:29-32 | a counter queue and an entry queue of the topic, distinct |
| Producer.Producer.GetNextMessageId | mq/src/main/java/com/redis/mq/mymq/Producer.java:70-78 | 1 when the counter is absent or unreachable, else the parsed counter plus one (32-bit), else an exception |
| Producer.Producer.Exec | mq/src/main/java/com/redis/mq/mymq/Producer.java:52-64 | commits exactly when connected, the counter parsed and no rival wrote it; a commit appends at the next index; an abort leaves only the rival's write |
| Producer.Producer.Publish | mq/src/main/java/com/redis/mq/mymq/Producer.java:47-50 | true exactly when the single attempt committed, and then the encoded message sits at the next index |
| Producer.Producer.PublishDefault | mq/src/main/java/com/redis/mq/mymq/Producer.java:38-40 | the same clauses as Publish, including the lost-race state, with a time-to-live of one day |
| Consumer.TopicSize | mq/src/main/java/com/redis/mq/mymq/Consumer.java:114-121 | a topic size that is returned is a 32-bit value |
| Consumer.TopicSizeOfCounter | mq/src/main/java/com/redis/mq/mymq/Consumer.java:114-121 | the size is 0 without a counter and the stored counter otherwise |
| Consumer.LastRead | mq/src/main/java/com/redis/mq/mymq/Consumer.java:100-108 | a reported cursor is a 32-bit value |
| Consumer.NewCursorIsSizeMinusOne | mq/src/main/java/com/redis/mq/mymq/Consumer.java:102-105 | a new subscriber's cursor is one below the topic size, -1 on an empty topic |
| Consumer.LastReadCreates | mq/src/main/java/com/redis/mq/mymq/Consumer.java:102-105 | a blank cursor is reported as size - 1 (32-bit) |
| Consumer.LastReadCreatesState | mq/src/main/java/com/redis/mq/mymq/Consumer.java:103-104 | what creating the cursor writes is exactly the creation step the read specification uses |
| Consumer.LastReadNoSize | mq/src/main/java/com/redis/mq/mymq/Consumer.java:102-103 | a blank cursor with an unreadable counter throws and writes nothing |
| Consumer.LastReadParses | mq/src/main/java/com/redis/mq/mymq/Consumer.java:107 | a non-blank cursor is `Integer.valueOf` of its text, and nothing is written |
| Consumer.AfterLastReadCreates | mq/src/main/java/com/redis/mq/mymq/Consumer.java:103-104 | a blank cursor is stored as the canonical text of size - 1 |
| Consumer.AfterLastReadCreatesSize | mq/src/main/java/com/redis/mq/mymq/Consumer.java:100-108 | creating the cursor leaves the topic size alone and the stored cursor is what was reported |
| Consumer.AfterLastReadIdempotent | mq/src/main/java/com/redis/mq/mymq/Consumer.java:100-108 | once a cursor has been reported, reading it again reports the same and changes nothing |
| Consumer.AfterLastReadSettles | mq/src/main/java/com/redis/mq/mymq/Consumer.java:100-108 | afterwards a sane cursor is stored canonically at the value reported |
| Consumer.AfterLastReadFrame | mq/src/main/java/com/redis/mq/mymq/Consumer.java:100-108 | only the cursor is touched, and its version moves whenever it is |
| Consumer.AfterLastReadProgress | mq/src/main/java/com/redis/mq/mymq/Consumer.java:100-108 | a sane cursor stays sane, never moves further from the end, and the topic size is kept |
| Consumer.CursorText | mq/src/main/java/com/redis/mq/mymq/Consumer.java:104-107 | a 32-bit cursor written as text is not blank and reads back as itself |
| Consumer.IntToStringNotBlank | mq/src/main/java/com/redis/mq/mymq/Consumer.java:102 | a cursor the protocol writes is never taken for missing |
| Consumer.IncrAdvancesCursor | mq/src/main/java/com/redis/mq/mymq/Consumer.java:90-94 | INCR of a canonical cursor c stores exactly c + 1, moves only its version, and replies c + 1 |
| Consumer.IncrementedText | mq/src/main/java/com/redis/mq/mymq/Consumer.java:90-94 | the incremented cursor is c + 1 to Redis, and to `Integer.valueOf` only while that fits 32 bits |
| Consumer.CursorAfterIncr | mq/src/main/java/com/redis/mq/mymq/Consumer.java:90-94 | an incremented cursor is sane and strictly nearer the end |
| Consumer.StartAfterIncr | mq/src/main/java/com/redis/mq/mymq/Consumer.java:90-94 | an increment keeps the topic size and makes the next read start at c + 1 |
| Consumer.Drain | mq/src/main/java/com/redis/mq/mymq/Consumer.java:66-83 | an uncontended read delivers the first present entry after the cursor and no further than the size, all skipped entries being absent; it stays put only at the end or on the wrapped backlog |
| Consumer.Deliveries | mq/src/main/java/com/redis/mq/mymq/Consumer.java:42-54 | a subscriber is handed at most as many messages as its backlog |
| Consumer.DeliveriesStep | mq/src/main/java/com/redis/mq/mymq/Consumer.java:42-54 | the callback gets the first delivery then the rest from the new cursor; a null read ends it |
| Consumer.DeliveriesInOrder | mq/src/main/java/com/redis/mq/mymq/Consumer.java:42-54 | the callback receives the decoded entries at strictly increasing indices after the cursor, none beyond the size |
| Consumer.NewSubscriberStartsAtNewest | mq/src/main/java/com/redis/mq/mymq/Consumer.java:102-105 | a brand-new subscriber on a topic of size n is first offered entry n, not entry 1 |
| Consumer.CaughtUp | mq/src/main/java/com/redis/mq/mymq/Consumer.java:80 | a cursor at the topic size reads nothing |
| Consumer.DrainStops | mq/src/main/java/com/redis/mq/mymq/Consumer.java:70 | with no positive backlog the read ends where it is |
| Consumer.BacklogWraps | mq/src/main/java/com/redis/mq/mymq/Consumer.java:135-137 | the backlog of cursor -1 on a topic of 2^31 - 1 wraps to -2^31, so nothing is read |
| Consumer.DrainNext | mq/src/main/java/com/redis/mq/mymq/Consumer.java:70-78 | with a positive backlog and entry c + 1 present, that entry is delivered |
| Consumer.SkipAbsent | mq/src/main/java/com/redis/mq/mymq/Consumer.java:75-77 | a missing entry is stepped over: the read from c is the read from c + 1 |
| Consumer.ReceivesTheRest | mq/src/main/java/com/redis/mq/mymq/Consumer.java:42-54 | on a topic holding the encodings of ms at 1..N, a cursor at c is handed exactly ms after its first c, in order |
| Consumer.EarlySubscriberReceivesAll | mq/src/main/java/com/redis/mq/mymq/Consumer.java:42-54 | a cursor made on the empty topic then N uncontended publishes: the subscriber is handed exactly the N messages in publish order |
| Consumer.DrainFrame | mq/src/main/java/com/redis/mq/mymq/Consumer.java:127-129 | what a read delivers does not depend on the cursor key's value |
| Consumer.AdvanceLosesToRival | mq/src/main/java/com/redis/mq/mymq/Consumer.java:69-74 | a rival's increment between our watch and exec makes our exec abort; only the rival's increment lands |
| Consumer.AdvanceAborts | mq/src/main/java/com/redis/mq/mymq/Consumer.java:72-74 | alone, with the cursor's version moved since the watch, the exec aborts and the pass goes round with nothing written |
| Consumer.AdvanceCommits | mq/src/main/java/com/redis/mq/mymq/Consumer.java:72-78 | alone, with the version unchanged, the increment commits and the pass delivers the decoded entry, or goes round when it was gone |
| Consumer.PassEnds | mq/src/main/java/com/redis/mq/mymq/Consumer.java:70-80 | a pass that throws or sees no backlog ends with that outcome and only the cursor creation |
| Consumer.PassGoesOn | mq/src/main/java/com/redis/mq/mymq/Consumer.java:70-71 | a pass with a positive backlog reads the entry after the cursor and tries to advance |
| Consumer.PassStops | mq/src/main/java/com/redis/mq/mymq/Consumer.java:80 | a pass with no positive backlog returns null |
| Consumer.UnreadPositive | mq/src/main/java/com/redis/mq/mymq/Consumer.java:135-137 | in the usual ranges a positive 32-bit backlog is the exact one |
| Consumer.SettledCursor | mq/src/main/java/com/redis/mq/mymq/Consumer.java:100-108 | after the cursor read the cursor is stored canonically, only it changed, and if it was created its version moved |
| Consumer.PassFrame | mq/src/main/java/com/redis/mq/mymq/Consumer.java:68-81 | a pass touches nothing but the cursor |
| Consumer.PassProgress | mq/src/main/java/com/redis/mq/mymq/Consumer.java:68-81 | a pass keeps a sane cursor sane; one that goes round or delivers moves it strictly nearer the end, so the loop terminates |
| Consumer.PassDelivers | mq/src/main/java/com/redis/mq/mymq/Consumer.java:71-78 | a delivered message is the decoded entry at the index the cursor now holds |
| Consumer.PassDrainsFinish | mq/src/main/java/com/redis/mq/mymq/Consumer.java:68-81 | alone, a pass that ends returns what the uncontended read delivers and leaves the cursor where it stops |
| Consumer.PassDrainsAgain | mq/src/main/java/com/redis/mq/mymq/Consumer.java:72-77 | alone, a pass that goes round keeps the size and the read still ahead, the cursor no further back |
| Consumer.DeliveredAtFrame | mq/src/main/java/com/redis/mq/mymq/Consumer.java:71-78 | a delivery stays one against stores that differ only at the cursor |
| Consumer.PassKeeps | mq/src/main/java/com/redis/mq/mymq/Consumer.java:68-81 | one pass keeps the loop's invariants and, alone, the outcome the uncontended read predicts |
| Consumer.ReadAdvances | mq/src/main/java/com/redis/mq/mymq/Consumer.java:42-54 | after one read the remaining deliveries are the old ones minus the message handed over |
| Consumer.Consumer.constructor | mq/src/main/java/com/redis/mq/mymq/Consumer.java:36-40 | counter, entry and cursor queues of the topic, the cursor queue keyed by the subscriber |
| Consumer.Consumer.GetTopicSize | mq/src/main/java/com/redis/mq/mymq/Consumer.java:114-121 | 0 on a missing counter, else `Integer.valueOf` of it |
| Consumer.Consumer.GetLastReadMessage | mq/src/main/java/com/redis/mq/mymq/Consumer.java:100-108 | reports the cursor, creating a blank one at size - 1 with no time-to-live |
| Consumer.Consumer.Read | mq/src/main/java/com/redis/mq/mymq/Consumer.java:127-129 | the entry at cursor + 1 (32-bit), or null |
| Consumer.Consumer.UnreadMessages | mq/src/main/java/com/redis/mq/mymq/Consumer.java:135-137 | size minus cursor as a 32-bit subtraction, with the cursor creation |
| Consumer.Consumer.GoNext | mq/src/main/java/com/redis/mq/mymq/Consumer.java:90-94 | commits the cursor increment exactly when no watched key moved, else null and no change |
| Consumer.Consumer.Check | mq/src/main/java/com/redis/mq/mymq/Consumer.java:69-70 | watches the cursor at its current version, then computes the backlog |
| Consumer.Consumer.Fetch | mq/src/main/java/com/redis/mq/mymq/Consumer.java:71-78 | reads the entry after the cursor and ends the pass as the specification of one advance says |
| Consumer.Consumer.Commit | mq/src/main/java/com/redis/mq/mymq/Consumer.java:72-78 | the rival's increment, then `goNext`; a commit with an entry delivers its decoding |
| Consumer.Consumer.Turn | mq/src/main/java/com/redis/mq/mymq/Consumer.java:68-81 | one pass of the loop, exactly as the pass specification says |
| Consumer.Consumer.ReadUntilEnd | mq/src/main/java/com/redis/mq/mymq/Consumer.java:66-83 | terminates; touches only the cursor; null and no change without a connection; a returned message is the decoded entry at the cursor's new index; alone it returns exactly what the uncontended read delivers |
| Consumer.Consumer.Consume | mq/src/main/java/com/redis/mq/mymq/Consumer.java:56-58 | one read, with every guarantee of ReadUntilEnd restated: termination measure, cursor-only writes, no change without a connection, the delivered entry, and alone the uncontended outcome and final cursor |
| Consumer.Consumer.ConsumeAll | mq/src/main/java/com/redis/mq/mymq/Consumer.java:42-54 | alone on a healthy topic the callback receives exactly the subscriber's remaining deliveries, in order; nothing without a connection |

## Left out

- Connection pooling, configuration, pub/sub, locks, sorted sets, `del` and the other
  `RedisCache` operations the queue does not use: the queue never calls them. `getJedis` becomes
  the store's `up` flag.
- Time: a time-to-live is recorded per key, and `RedisCache.Store.Evict` removes a key that
  carries one. When expiry happens is not modelled.
- Concurrency is limited to the rival parameters: one foreign write of the counter per publish,
  and one foreign increment of the cursor per read pass. Other interleavings are not modelled.
- `RedisQueue.execOnSameRedisConn` (RedisQueue.java:89-93) is written out inside
  `Producer.Producer.Exec` and `Consumer.Consumer.ReadUntilEnd`: both are a
  `RedisCache.ExecOnSameRedisConn` around a freshly wrapped transaction. Lambdas are not modelled
  as values.
- Jedis `exec` after an aborted transaction is taken to return null.
- JSON: a message is opaque member text and its encoding wraps it in braces. The round trip
  `Decode(Encode(m)) == Some(m)` is proved for that stand-in, not for fastjson.
- `Consumer.Consumer.ReadUntilEnd`: requires `CursorSane`, i.e. a cursor that parses as a Java
  `int` is stored canonically. A cursor such as "007" or "+5" makes Redis INCR fail inside EXEC
  while the Java loop keeps going round, so the loop need not end. The protocol never writes
  such a cursor.
- `Consumer.Consumer.ConsumeAll`: the callback is left out. Its exceptions are swallowed
  (Consumer.java:49-51), and the model assumes it writes nothing to the store: a callback that
  publishes to the topic or moves this subscriber's cursor would change what the next read
  sees. No rival reader runs during the loop either.
- `UtilCompare.IsStringEqualIgnoreCase`: case folding is ASCII only. Java's `equalsIgnoreCase`
  also folds non-ASCII letters.
- `UtilCompare.IsEqual`: the `Date` branch (`isDateEqual`, which compares calendar fields up to
  seconds) is not modelled. Values are compared by equality.
- `JavaInt.ParseInt`: only ASCII digits are accepted. `Integer.parseInt` also accepts other
  Unicode decimal digits.
- `RedisQueue.RedisQueue.CatInt`: a null `Integer` (which gives the key part "null") is not
  modelled. The queue only passes indices.
- `RedisCache.Store.Incr` is not a `RedisCache` operation: it stands for another client's INCR
  in the rival scenarios.
