/** `Consumer`: one subscriber's cursor on one topic. Reading a message checks the backlog,
    fetches the entry after the cursor, and advances the cursor in an optimistic transaction,
    retrying on an abort and skipping entries that are gone. */
module Consumer {
  import opened Wrappers
  import opened JavaInt
  import opened UtilCompare
  import opened Keys
  import opened Envelope
  import RedisCache
  import RedisQueue
  import Producer

  /** Time-to-live of a freshly created cursor: none. */
  const DEFAULT_EXPIRE_TIME: int := 0

  /** `getTopicSize()` given the counter read: absent counts as 0, otherwise `Integer.valueOf`. */
  function TopicSize(counter: Option<string>): (a: Attempt<int>)
    ensures a.Returned? ==> IsInt32(a.value)
  {
    match counter
    case None => Returned(0)
    case Some(s) => if ParseInt(s).Some? then Returned(ParseInt(s).value) else Threw
  }

  /** The size of a topic is 0 before its first publish and the stored counter afterwards. */
  lemma TopicSizeOfCounter(n: int)
    requires IsInt32(n)
    ensures TopicSize(None) == Returned(0)
    ensures TopicSize(Some(IntToString(n))) == Returned(n)
  {
    ParseIntToString(n);
  }

  /** `getLastReadMessage()` given the cursor and counter reads: a blank cursor is created as
      `size - 1` (32-bit), otherwise the cursor goes through `Integer.valueOf`. */
  function LastRead(cursor: Option<string>, counter: Option<string>): (a: Attempt<int>)
    ensures a.Returned? ==> IsInt32(a.value)
  {
    if IsEmpty(cursor) then
      match TopicSize(counter)
      case Returned(size) => Returned(Wrap32(size - 1))
      case Threw => Threw
    else if ParseInt(cursor.value).Some? then Returned(ParseInt(cursor.value).value)
    else Threw
  }

  /** A new subscriber's cursor is one below the topic size: -1 on an empty topic. */
  lemma NewCursorIsSizeMinusOne(n: int)
    requires MIN32 < n <= MAX32
    ensures LastRead(None, None) == Returned(-1)
    ensures LastRead(None, Some(IntToString(n))) == Returned(n - 1)
  {
    ParseIntToString(n);
  }

  /** The cursor a subscriber's next read starts from, and the size it compares against. */
  function StartSize(data: map<string, string>, topicPrefix: string): Attempt<int>
  {
    TopicSize(RedisCache.Lookup(true, data, CounterKey(topicPrefix)))
  }

  function StartCursor(data: map<string, string>, topicPrefix: string, cursorKey: string): Attempt<int>
  {
    LastRead(RedisCache.Lookup(true, data, cursorKey), RedisCache.Lookup(true, data, CounterKey(topicPrefix)))
  }

  /** A state the protocol itself produces: a non-negative size and a cursor of at least -1. */
  predicate Healthy(data: map<string, string>, topicPrefix: string, cursorKey: string)
  {
    && StartSize(data, topicPrefix).Returned? && StartSize(data, topicPrefix).value >= 0
    && StartCursor(data, topicPrefix, cursorKey).Returned? && StartCursor(data, topicPrefix, cursorKey).value >= -1
  }

  /** What one uncontended read does to a cursor at `c` on a topic of size `size`. */
  datatype DrainResult = Drained(cursor: int) | Delivered(text: string, cursor: int)

  /** One read as a specification: while `size - cursor` (32-bit) is positive, step to the next
      index; stop at the first entry that is present and deliver it. */
  function Drain(data: map<string, string>, topicPrefix: string, size: int, c: int): (d: DrainResult)
    requires 0 <= size <= MAX32 && -1 <= c <= MAX32
    ensures c <= d.cursor <= MAX32
    ensures d.Delivered? ==> c < d.cursor <= size
    ensures d.Delivered? ==> EntryKey(topicPrefix, d.cursor) in data && data[EntryKey(topicPrefix, d.cursor)] == d.text
    ensures d.Drained? ==> d.cursor == c || d.cursor == size
    ensures d.Drained? && d.cursor == c && c < size ==> c == -1 && size == MAX32
    ensures forall i :: c < i < d.cursor ==> EntryKey(topicPrefix, i) !in data
    decreases size - c
  {
    if Wrap32(size - c) <= 0 then Drained(c)
    else if EntryKey(topicPrefix, c + 1) in data then Delivered(data[EntryKey(topicPrefix, c + 1)], c + 1)
    else Drain(data, topicPrefix, size, c + 1)
  }

  /** The message a read returns. A text that does not decode ends the read with null. */
  function Delivery(d: DrainResult): Option<Message>
  {
    if d.Delivered? then Decode(d.text) else None
  }

  /** Where an uncontended `readUntilEnd()` from a healthy store ends. */
  function NextDrain(data: map<string, string>, topicPrefix: string, cursorKey: string): DrainResult
    requires Healthy(data, topicPrefix, cursorKey)
  {
    Drain(data, topicPrefix, StartSize(data, topicPrefix).value, StartCursor(data, topicPrefix, cursorKey).value)
  }

  /** All the messages a `consume(callback)` hands to the callback, in order. */
  function Deliveries(data: map<string, string>, topicPrefix: string, size: int, c: int): (ms: seq<Message>)
    requires 0 <= size <= MAX32 && -1 <= c <= MAX32
    ensures |ms| <= size - c || ms == []
    decreases size - c
  {
    match Drain(data, topicPrefix, size, c)
    case Drained(_) => []
    case Delivered(text, next) =>
      match Decode(text)
      case None => []
      case Some(m) => [m] + Deliveries(data, topicPrefix, size, next)
  }

  /** A brand-new subscriber on a topic of size n >= 1 is first handed entry n, not entry 1. */
  lemma {:induction false} NewSubscriberStartsAtNewest(data: map<string, string>, topicPrefix: string, n: int)
    requires 1 <= n <= MAX32
    ensures Drain(data, topicPrefix, n, n - 1) ==
      if EntryKey(topicPrefix, n) in data then Delivered(data[EntryKey(topicPrefix, n)], n) else Drained(n)
  {
    if EntryKey(topicPrefix, n) !in data {
      assert Drain(data, topicPrefix, n, n - 1) == Drain(data, topicPrefix, n, n);
    }
  }

  /** After a read that ended at the topic size, a further read finds nothing. */
  lemma CaughtUp(data: map<string, string>, topicPrefix: string, size: int)
    requires 0 <= size <= MAX32
    ensures Drain(data, topicPrefix, size, size) == Drained(size)
    ensures Deliveries(data, topicPrefix, size, size) == []
  {
  }

  /** The indices of the entries `Deliveries` hands out, in the same order. */
  function DeliveryIndices(data: map<string, string>, topicPrefix: string, size: int, c: int): seq<int>
    requires 0 <= size <= MAX32 && -1 <= c <= MAX32
    decreases size - c
  {
    match Drain(data, topicPrefix, size, c)
    case Drained(_) => []
    case Delivered(text, next) =>
      match Decode(text)
      case None => []
      case Some(m) => [next] + DeliveryIndices(data, topicPrefix, size, next)
  }

  /** One unfolding of `Deliveries` and `DeliveryIndices` side by side. */
  lemma DeliveriesStep(data: map<string, string>, topicPrefix: string, size: int, c: int)
    requires 0 <= size <= MAX32 && -1 <= c <= MAX32
    ensures var d := Drain(data, topicPrefix, size, c);
      if d.Delivered? && Decode(d.text).Some? then
        && Deliveries(data, topicPrefix, size, c) == [Decode(d.text).value] + Deliveries(data, topicPrefix, size, d.cursor)
        && DeliveryIndices(data, topicPrefix, size, c) == [d.cursor] + DeliveryIndices(data, topicPrefix, size, d.cursor)
      else
        Deliveries(data, topicPrefix, size, c) == [] && DeliveryIndices(data, topicPrefix, size, c) == []
  {
  }

  /** Indices `idx` lie in (c, size], strictly increase, and name the entries `ms` decode from. */
  predicate InOrder(data: map<string, string>, topicPrefix: string, size: int, c: int, ms: seq<Message>, idx: seq<int>)
  {
    && |idx| == |ms|
    && (forall i :: 0 <= i < |idx| ==> c < idx[i] <= size)
    && (forall i, j :: 0 <= i < j < |idx| ==> idx[i] < idx[j])
    && (forall i :: 0 <= i < |idx| ==>
          EntryKey(topicPrefix, idx[i]) in data && Decode(data[EntryKey(topicPrefix, idx[i])]) == Some(ms[i]))
  }

  /** Putting one more delivery in front of an ordered tail keeps the order. */
  lemma InOrderCons(data: map<string, string>, topicPrefix: string, size: int, c: int, next: int,
                    m: Message, ms: seq<Message>, idx: seq<int>)
    requires InOrder(data, topicPrefix, size, next, ms, idx) && c < next <= size
    requires EntryKey(topicPrefix, next) in data && Decode(data[EntryKey(topicPrefix, next)]) == Some(m)
    ensures InOrder(data, topicPrefix, size, c, [m] + ms, [next] + idx)
  {
    var ms2, idx2 := [m] + ms, [next] + idx;
    forall i | 0 < i < |idx2|
      ensures idx2[i] == idx[i - 1] && ms2[i] == ms[i - 1]
    {
    }
    forall i, j | 0 <= i < j < |idx2| ensures idx2[i] < idx2[j] {
      assert idx2[j] == idx[j - 1];
    }
  }

  /** One subscriber is handed strictly increasing indices, all past its starting cursor, and
      each delivered message is the decoded entry stored at its index. */
  lemma {:induction false} DeliveriesInOrder(data: map<string, string>, topicPrefix: string, size: int, c: int)
    requires 0 <= size <= MAX32 && -1 <= c <= MAX32
    ensures InOrder(data, topicPrefix, size, c, Deliveries(data, topicPrefix, size, c), DeliveryIndices(data, topicPrefix, size, c))
    decreases size - c
  {
    var d := Drain(data, topicPrefix, size, c);
    DeliveriesStep(data, topicPrefix, size, c);
    if d.Delivered? && Decode(d.text).Some? {
      DeliveriesInOrder(data, topicPrefix, size, d.cursor);
      InOrderCons(data, topicPrefix, size, c, d.cursor, Decode(d.text).value,
                  Deliveries(data, topicPrefix, size, d.cursor), DeliveryIndices(data, topicPrefix, size, d.cursor));
    }
  }

  /** `Drain` with nothing unread stops where it is. */
  lemma DrainStops(data: map<string, string>, topicPrefix: string, size: int, c: int)
    requires 0 <= size <= MAX32 && -1 <= c <= MAX32 && Wrap32(size - c) <= 0
    ensures Drain(data, topicPrefix, size, c) == Drained(c)
  {
  }

  /** The 32-bit backlog wraps: a cursor at -1 on a topic of size 2^31 - 1 sees a negative
      backlog, so the read stops at once although every entry is unread. */
  lemma BacklogWraps(data: map<string, string>, topicPrefix: string)
    ensures Wrap32(MAX32 - (-1)) == MIN32
    ensures Drain(data, topicPrefix, MAX32, -1) == Drained(-1)
  {
    DrainStops(data, topicPrefix, MAX32, -1);
  }

  /** `Drain` with something unread delivers entry c+1 when it is present. */
  lemma DrainNext(data: map<string, string>, topicPrefix: string, size: int, c: int)
    requires 0 <= size <= MAX32 && -1 <= c <= MAX32 && Wrap32(size - c) > 0
    requires EntryKey(topicPrefix, c + 1) in data
    ensures Drain(data, topicPrefix, size, c) == Delivered(data[EntryKey(topicPrefix, c + 1)], c + 1)
  {
  }

  /** Skipping: when entry c+1 is gone, the read from c is the read from c+1. */
  lemma SkipAbsent(data: map<string, string>, topicPrefix: string, size: int, c: int)
    requires 0 <= size <= MAX32 && -1 <= c && 0 < size - c <= MAX32
    requires EntryKey(topicPrefix, c + 1) !in data
    ensures Drain(data, topicPrefix, size, c) == Drain(data, topicPrefix, size, c + 1)
  {
  }

  lemma SuffixCons<T>(s: seq<T>, c: int)
    requires 0 <= c < |s|
    ensures s[c..] == [s[c]] + s[c + 1..]
  {
  }

  /** On a topic whose entries 1..N hold the encodings of `ms`, a cursor at `c` has exactly the
      messages after the first `c` still to come, in publish order. */
  lemma {:induction false} ReceivesTheRest(data: map<string, string>, topicPrefix: string, ms: seq<Message>, c: int)
    requires |ms| <= MAX32 && 0 <= c <= |ms|
    requires forall i :: 1 <= i <= |ms| ==>
               EntryKey(topicPrefix, i) in data && data[EntryKey(topicPrefix, i)] == Encode(ms[i - 1])
    ensures Deliveries(data, topicPrefix, |ms|, c) == ms[c..]
    decreases |ms| - c
  {
    if c < |ms| {
      assert data[EntryKey(topicPrefix, c + 1)] == Encode(ms[c]);
      DrainNext(data, topicPrefix, |ms|, c);
      DecodeEncode(ms[c]);
      DeliveriesStep(data, topicPrefix, |ms|, c);
      ReceivesTheRest(data, topicPrefix, ms, c + 1);
      SuffixCons(ms, c);
    } else {
      DrainStops(data, topicPrefix, |ms|, c);
    }
  }

  /** End to end: a subscriber whose cursor was created on the empty topic (at -1, or at 0 after
      its first read stepped over the missing entry 0) and who then drains the topic after N
      uncontended publishes of `ms` is handed exactly `ms`, in order. From -1 this needs fewer
      than 2^31 - 1 messages: at that size the 32-bit backlog `size - cursor` wraps negative and
      the read reports nothing. */
  lemma EarlySubscriberReceivesAll(s: RedisCache.KV, topicPrefix: string, subscriberKey: string,
                                   ms: seq<Message>, seconds: int, c: int)
    requires CounterKey(topicPrefix) !in s.data && EntryKey(topicPrefix, 0) !in s.data
    requires 1 <= |ms| <= MAX32 && -1 <= c <= 0
    requires c == -1 ==> |ms| < MAX32
    requires CursorKey(topicPrefix, subscriberKey) in s.data && s.data[CursorKey(topicPrefix, subscriberKey)] == IntToString(c)
    ensures var t := Producer.PublishAll(s, topicPrefix, ms, seconds);
      && Healthy(t.data, topicPrefix, CursorKey(topicPrefix, subscriberKey))
      && StartSize(t.data, topicPrefix) == Returned(|ms|)
      && StartCursor(t.data, topicPrefix, CursorKey(topicPrefix, subscriberKey)) == Returned(c)
      && Deliveries(t.data, topicPrefix, |ms|, c) == ms
  {
    var ck := CursorKey(topicPrefix, subscriberKey);
    var t := Producer.PublishAll(s, topicPrefix, ms, seconds);
    Producer.PublishAllNumbersFromOne(s, topicPrefix, ms, seconds);
    TopicSizeOfCounter(|ms|);
    forall i | 1 <= i <= |ms| ensures ck != EntryKey(topicPrefix, i) && EntryKey(topicPrefix, 0) != EntryKey(topicPrefix, i) {
      SlotKindsDistinct(topicPrefix, i, subscriberKey);
      EntryKeysDistinct(topicPrefix, 0, i);
    }
    SlotKindsDistinct(topicPrefix, 0, subscriberKey);
    Producer.PublishAllFrame(s, topicPrefix, ms, seconds, ck);
    Producer.PublishAllFrame(s, topicPrefix, ms, seconds, EntryKey(topicPrefix, 0));
    assert EntryKey(topicPrefix, 0) !in t.data;
    CursorText(c);
    ReceivesTheRest(t.data, topicPrefix, ms, 0);
    if c == -1 {
      SkipAbsent(t.data, topicPrefix, |ms|, -1);
      DeliveriesStep(t.data, topicPrefix, |ms|, -1);
      DeliveriesStep(t.data, topicPrefix, |ms|, 0);
    }
  }

  /** An increment of a cursor stored canonically as `c` stores exactly `c + 1`, moves the
      cursor's version, and replies with the new value. */
  lemma IncrAdvancesCursor(s: RedisCache.KV, cursorKey: string, c: int)
    requires MIN64 <= c < MAX64 && cursorKey in s.data && s.data[cursorKey] == IntToString(c)
    ensures RedisCache.Run(s, [RedisCache.IncrCmd(cursorKey)]).0
         == RedisCache.KV(s.data[cursorKey := IntToString(c + 1)], s.expiry, RedisCache.Bump(s.version, cursorKey))
    ensures RedisCache.Run(s, [RedisCache.IncrCmd(cursorKey)]).1 == [RedisCache.IntReply(c + 1)]
  {
    RedisIntToString(c);
    var cmds := [RedisCache.IncrCmd(cursorKey)];
    assert cmds[1..] == [];
    assert RedisCache.IncrValue(s.data, cursorKey) == Some(c + 1);
  }

  /** A cursor value the protocol writes is never blank. */
  lemma IntToStringNotBlank(n: int)
    ensures !IsEmpty(Some(IntToString(n)))
  {
    IntToStringStart(n);
    IsEmptyIffBlank(Some(IntToString(n)));
    assert !IsTrimmed(IntToString(n)[0]);
  }

  /** The cursor, whenever it parses as a 32-bit integer, is written the way Redis writes it. */
  predicate CursorSane(data: map<string, string>, cursorKey: string)
  {
    (cursorKey in data && !IsEmpty(Some(data[cursorKey])) && ParseInt(data[cursorKey]).Some?) ==>
      data[cursorKey] == IntToString(ParseInt(data[cursorKey]).value)
  }

  /** How far a cursor is from the end of the 32-bit index space: a blank cursor is furthest,
      a numeric cursor c is MAX32 + 1 - c away, and an unreadable one is at the end. */
  function Progress(data: map<string, string>, cursorKey: string): nat
  {
    if IsEmpty(RedisCache.Lookup(true, data, cursorKey)) then 0x2_0000_0000
    else match ParseInt(data[cursorKey])
      case Some(c) => MAX32 + 1 - c
      case None => 0
  }

  /** The store after `getLastReadMessage()` on a connection: a blank cursor is created one
      below the topic size by a SET without time-to-live (so any old time-to-live is dropped and
      the cursor's version moves), unless the counter is unreadable. */
  function AfterLastRead(s: RedisCache.KV, topicPrefix: string, cursorKey: string): RedisCache.KV
  {
    if IsEmpty(RedisCache.Lookup(true, s.data, cursorKey)) && StartSize(s.data, topicPrefix).Returned? then
      var lowest := Wrap32(StartSize(s.data, topicPrefix).value - 1);
      RedisCache.KV(s.data[cursorKey := IntToString(lowest)], s.expiry - {cursorKey}, RedisCache.Bump(s.version, cursorKey))
    else s
  }

  /** On a blank cursor and a readable counter, `getLastReadMessage()` stores the cursor one
      below the topic size, canonically, and moves the cursor's version; nothing else changes. */
  lemma AfterLastReadCreates(s: RedisCache.KV, topicPrefix: string, subscriberKey: string)
    requires IsEmpty(RedisCache.Lookup(true, s.data, CursorKey(topicPrefix, subscriberKey)))
    requires StartSize(s.data, topicPrefix).Returned?
    ensures CursorKey(topicPrefix, subscriberKey) in AfterLastRead(s, topicPrefix, CursorKey(topicPrefix, subscriberKey)).data
    ensures AfterLastRead(s, topicPrefix, CursorKey(topicPrefix, subscriberKey)).data[CursorKey(topicPrefix, subscriberKey)]
              == IntToString(Wrap32(StartSize(s.data, topicPrefix).value - 1))
  {
  }

  /** A 32-bit value written as text is not blank and reads back as itself. */
  lemma CursorText(c: int)
    requires IsInt32(c)
    ensures !IsEmpty(Some(IntToString(c)))
    ensures ParseInt(IntToString(c)) == Some(c)
  {
    IntToStringNotBlank(c);
    ParseIntToString(c);
  }

  /** Creating the cursor leaves the topic size alone, and the new cursor is what was reported. */
  lemma AfterLastReadCreatesSize(s: RedisCache.KV, topicPrefix: string, subscriberKey: string)
    requires IsEmpty(RedisCache.Lookup(true, s.data, CursorKey(topicPrefix, subscriberKey)))
    requires StartSize(s.data, topicPrefix).Returned?
    ensures var ck := CursorKey(topicPrefix, subscriberKey);
      var t := AfterLastRead(s, topicPrefix, ck);
      && StartSize(t.data, topicPrefix) == StartSize(s.data, topicPrefix)
      && StartCursor(s.data, topicPrefix, ck) == Returned(Wrap32(StartSize(s.data, topicPrefix).value - 1))
  {
    var ck := CursorKey(topicPrefix, subscriberKey);
    AfterLastReadCreates(s, topicPrefix, subscriberKey);
    var t := AfterLastRead(s, topicPrefix, ck);
    assert RedisCache.Lookup(true, t.data, CounterKey(topicPrefix)) == RedisCache.Lookup(true, s.data, CounterKey(topicPrefix)) by {
      SlotKindsDistinct(topicPrefix, 0, subscriberKey);
    }
  }

  /** Once `getLastReadMessage()` has reported a cursor, calling it again reports the same
      cursor and changes nothing. */
  lemma AfterLastReadIdempotent(s: RedisCache.KV, topicPrefix: string, subscriberKey: string)
    requires StartCursor(s.data, topicPrefix, CursorKey(topicPrefix, subscriberKey)).Returned?
    ensures var ck := CursorKey(topicPrefix, subscriberKey);
      var t := AfterLastRead(s, topicPrefix, ck);
      && StartCursor(t.data, topicPrefix, ck) == StartCursor(s.data, topicPrefix, ck)
      && StartSize(t.data, topicPrefix) == StartSize(s.data, topicPrefix)
      && AfterLastRead(t, topicPrefix, ck) == t
  {
    var ck := CursorKey(topicPrefix, subscriberKey);
    if IsEmpty(RedisCache.Lookup(true, s.data, ck)) {
      AfterLastReadCreates(s, topicPrefix, subscriberKey);
      AfterLastReadCreatesSize(s, topicPrefix, subscriberKey);
      CursorText(Wrap32(StartSize(s.data, topicPrefix).value - 1));
    }
  }

  /** A readable sane cursor, once `getLastReadMessage()` has run, is stored canonically at the
      value it reported. */
  lemma AfterLastReadSettles(s: RedisCache.KV, topicPrefix: string, subscriberKey: string)
    requires CursorSane(s.data, CursorKey(topicPrefix, subscriberKey))
    requires StartCursor(s.data, topicPrefix, CursorKey(topicPrefix, subscriberKey)).Returned?
    ensures var ck := CursorKey(topicPrefix, subscriberKey);
      var t := AfterLastRead(s, topicPrefix, ck);
      var c := StartCursor(s.data, topicPrefix, ck).value;
      && ck in t.data && t.data[ck] == IntToString(c)
      && !IsEmpty(Some(t.data[ck])) && ParseInt(t.data[ck]) == Some(c)
  {
    var ck := CursorKey(topicPrefix, subscriberKey);
    var c := StartCursor(s.data, topicPrefix, ck).value;
    if IsEmpty(RedisCache.Lookup(true, s.data, ck)) {
      AfterLastReadCreates(s, topicPrefix, subscriberKey);
      AfterLastReadCreatesSize(s, topicPrefix, subscriberKey);
      CursorText(c);
    } else {
      ParseIntToString(c);
    }
  }

  /** `getLastReadMessage()` touches only the cursor, and moves its version whenever it does. */
  lemma AfterLastReadFrame(s: RedisCache.KV, topicPrefix: string, subscriberKey: string)
    ensures var ck := CursorKey(topicPrefix, subscriberKey);
      var t := AfterLastRead(s, topicPrefix, ck);
      && RedisCache.OnlyTouches(s, t, ck)
      && (t != s ==> RedisCache.VersionOf(t.version, ck) > RedisCache.VersionOf(s.version, ck))
  {
    var ck := CursorKey(topicPrefix, subscriberKey);
    var t := AfterLastRead(s, topicPrefix, ck);
    if IsEmpty(RedisCache.Lookup(true, s.data, ck)) && StartSize(s.data, topicPrefix).Returned? {
      var text := IntToString(Wrap32(StartSize(s.data, topicPrefix).value - 1));
      assert t == RedisCache.KV(s.data[ck := text], s.expiry - {ck}, RedisCache.Bump(s.version, ck));
      assert t.data - {ck} == s.data - {ck};
      assert t.expiry - {ck} == s.expiry - {ck};
    } else {
      assert t == s;
    }
  }

  /** `getLastReadMessage()` keeps the cursor sane and the topic size, and never moves a cursor
      further from the end. */
  lemma AfterLastReadProgress(s: RedisCache.KV, topicPrefix: string, subscriberKey: string)
    requires CursorSane(s.data, CursorKey(topicPrefix, subscriberKey))
    ensures var ck := CursorKey(topicPrefix, subscriberKey);
      var t := AfterLastRead(s, topicPrefix, ck);
      && CursorSane(t.data, ck)
      && Progress(t.data, ck) <= Progress(s.data, ck)
      && StartSize(t.data, topicPrefix) == StartSize(s.data, topicPrefix)
  {
    var ck := CursorKey(topicPrefix, subscriberKey);
    var t := AfterLastRead(s, topicPrefix, ck);
    if IsEmpty(RedisCache.Lookup(true, s.data, ck)) && StartSize(s.data, topicPrefix).Returned? {
      AfterLastReadCreates(s, topicPrefix, subscriberKey);
      AfterLastReadCreatesSize(s, topicPrefix, subscriberKey);
      var lowest := Wrap32(StartSize(s.data, topicPrefix).value - 1);
      CursorText(lowest);
      assert Progress(t.data, ck) == MAX32 + 1 - lowest;
    }
  }

  /** `getLastReadMessage()` on a blank cursor and a readable counter of `size` reports
      `size - 1` (32-bit) ... */
  lemma LastReadCreates(cursor: Option<string>, counter: Option<string>, size: int)
    requires IsEmpty(cursor) && TopicSize(counter) == Returned(size)
    ensures LastRead(cursor, counter) == Returned(Wrap32(size - 1))
  {
  }

  /** ... and what it writes is the creation `AfterLastRead` describes. */
  lemma LastReadCreatesState(s: RedisCache.KV, topicPrefix: string, cursorKey: string, size: int, t: RedisCache.KV)
    requires IsEmpty(RedisCache.Lookup(true, s.data, cursorKey))
    requires StartSize(s.data, topicPrefix) == Returned(size)
    requires t == RedisCache.Run(s, RedisCache.SetCommands(cursorKey, IntToString(Wrap32(size - 1)), DEFAULT_EXPIRE_TIME)).0
    ensures t == AfterLastRead(s, topicPrefix, cursorKey)
  {
    RedisCache.SetWithoutExpiry(s, cursorKey, IntToString(Wrap32(size - 1)));
  }

  /** `getLastReadMessage()` on a blank cursor and an unreadable counter: it throws, writing nothing. */
  lemma LastReadNoSize(s: RedisCache.KV, up: bool, topicPrefix: string, cursorKey: string)
    requires IsEmpty(RedisCache.Lookup(up, s.data, cursorKey))
    requires TopicSize(RedisCache.Lookup(up, s.data, CounterKey(topicPrefix))).Threw?
    ensures LastRead(RedisCache.Lookup(up, s.data, cursorKey), RedisCache.Lookup(up, s.data, CounterKey(topicPrefix))).Threw?
    ensures up ==> AfterLastRead(s, topicPrefix, cursorKey) == s
  {
  }

  /** `getLastReadMessage()` on a cursor holding the non-blank text `v`: `Integer.valueOf(v)`,
      writing nothing. */
  lemma LastReadParses(s: RedisCache.KV, up: bool, topicPrefix: string, cursorKey: string, v: string)
    requires RedisCache.Lookup(up, s.data, cursorKey) == Some(v) && !IsEmpty(Some(v))
    ensures LastRead(RedisCache.Lookup(up, s.data, cursorKey), RedisCache.Lookup(up, s.data, CounterKey(topicPrefix))) ==
      if ParseInt(v).Some? then Returned(ParseInt(v).value) else Threw
    ensures up ==> AfterLastRead(s, topicPrefix, cursorKey) == s
  {
  }

  /** A read from one cursor looks only at the topic's entries, never at a cursor key. */
  lemma {:induction false} DrainFrame(d1: map<string, string>, d2: map<string, string>, topicPrefix: string,
                                       subscriberKey: string, size: int, c: int)
    requires 0 <= size <= MAX32 && -1 <= c <= MAX32
    requires d1 - {CursorKey(topicPrefix, subscriberKey)} == d2 - {CursorKey(topicPrefix, subscriberKey)}
    ensures Drain(d1, topicPrefix, size, c) == Drain(d2, topicPrefix, size, c)
    decreases size - c
  {
    var ck := CursorKey(topicPrefix, subscriberKey);
    if Wrap32(size - c) > 0 {
      var e := EntryKey(topicPrefix, c + 1);
      SlotKindsDistinct(topicPrefix, c + 1, subscriberKey);
      assert (e in d1) == (e in d1 - {ck}) && (e in d2) == (e in d2 - {ck});
      if e in d1 {
        assert d1[e] == (d1 - {ck})[e] == (d2 - {ck})[e] == d2[e];
      } else {
        DrainFrame(d1, d2, topicPrefix, subscriberKey, size, c + 1);
      }
    }
  }

  /** The text an increment leaves in a cursor that held `c`: never blank, readable by Redis
      as `c + 1`, and by `Integer.valueOf` only while `c + 1` fits in 32 bits. */
  lemma IncrementedText(c: int)
    requires IsInt32(c)
    ensures !IsEmpty(Some(IntToString(c + 1)))
    ensures RedisInt(IntToString(c + 1)) == Some(c + 1)
    ensures ParseInt(IntToString(c + 1)) == if c < MAX32 then Some(c + 1) else None
  {
    IntToStringNotBlank(c + 1);
    RedisIntToString(c + 1);
    if c < MAX32 {
      ParseIntToString(c + 1);
    } else {
      ParseIntOutOfRange(c + 1);
    }
  }

  /** After an increment of a cursor stored canonically as `c`, the cursor is `c + 1` to Redis,
      still sane, and strictly nearer the end. */
  lemma CursorAfterIncr(data: map<string, string>, cursorKey: string, c: int)
    requires IsInt32(c)
    ensures var d := data[cursorKey := IntToString(c + 1)];
      && CursorSane(d, cursorKey)
      && Progress(d, cursorKey) <= MAX32 - c
      && RedisInt(d[cursorKey]) == Some(c + 1)
  {
    IncrementedText(c);
  }

  /** An increment of the cursor leaves the topic size alone, and the next read starts at `c + 1`
      while that fits in 32 bits. */
  lemma StartAfterIncr(data: map<string, string>, topicPrefix: string, subscriberKey: string, c: int)
    requires IsInt32(c)
    ensures var ck := CursorKey(topicPrefix, subscriberKey);
      var d := data[ck := IntToString(c + 1)];
      && StartSize(d, topicPrefix) == StartSize(data, topicPrefix)
      && (c < MAX32 ==> StartCursor(d, topicPrefix, ck) == Returned(c + 1))
  {
    var ck := CursorKey(topicPrefix, subscriberKey);
    var d := data[ck := IntToString(c + 1)];
    IncrementedText(c);
    assert RedisCache.Lookup(true, d, CounterKey(topicPrefix)) == RedisCache.Lookup(true, data, CounterKey(topicPrefix)) by {
      SlotKindsDistinct(topicPrefix, 0, subscriberKey);
    }
  }

  /** `read()` given the cursor it read: the entry at the index after it (32-bit), or null. */
  function EntryAfter(last: Attempt<int>, up: bool, data: map<string, string>, topicPrefix: string): Attempt<Option<string>>
  {
    if last.Threw? then Threw else Returned(RedisCache.Lookup(up, data, EntryKey(topicPrefix, Wrap32(last.value + 1))))
  }

  /** `m` is the decoded entry, as the entries stood in `before`, at the index (32-bit) that
      the cursor in `data` now holds. */
  predicate DeliveredAt(data: map<string, string>, before: map<string, string>, topicPrefix: string,
                        cursorKey: string, m: Message)
  {
    && cursorKey in data && RedisInt(data[cursorKey]).Some?
    && EntryKey(topicPrefix, Wrap32(RedisInt(data[cursorKey]).value)) in before
    && Decode(before[EntryKey(topicPrefix, Wrap32(RedisInt(data[cursorKey]).value))]) == Some(m)
  }

  /** How one pass of the read loop ends: a value for `execOnSameRedisConn`, or another pass. */
  datatype Turn = Finish(result: Attempt<Option<Message>>) | Again

  /** One pass of the `readUntilEnd` loop from store `s`: the pass's outcome and the store it
      leaves. The cursor is watched; `unreadMessages()` (which may create the cursor) ends the
      read with null when nothing is unread; otherwise `read()` fetches the entry after the
      cursor, a rival may increment the cursor, and `goNext` commits the increment only if the
      cursor's version is still the watched one. A committed exec with the entry present delivers
      the decoded entry; every other case goes round. */
  function Pass(s: RedisCache.KV, topicPrefix: string, cursorKey: string, rival: bool): (Turn, RedisCache.KV)
  {
    PassFrom(StartSize(s.data, topicPrefix), StartCursor(s.data, topicPrefix, cursorKey),
             AfterLastRead(s, topicPrefix, cursorKey), topicPrefix, cursorKey,
             RedisCache.VersionOf(s.version, cursorKey), rival)
  }

  /** `unreadMessages()` given the size and cursor it read: their 32-bit difference. */
  function Unread(size: Attempt<int>, last: Attempt<int>): Attempt<int>
  {
    if size.Threw? || last.Threw? then Threw else Returned(Wrap32(size.value - last.value))
  }

  /** A pass once `unreadMessages()` has seen `size` and `last` and left the store at `s1`,
      with the cursor's version `watched` when the pass began. */
  function PassFrom(size: Attempt<int>, last: Attempt<int>, s1: RedisCache.KV, topicPrefix: string,
                    cursorKey: string, watched: nat, rival: bool): (Turn, RedisCache.KV)
  {
    if Unread(size, last).Threw? then (Finish(Threw), s1)
    else if Unread(size, last).value <= 0 then (Finish(Returned(None)), s1)
    else Advance(s1, RedisCache.Lookup(true, s1.data, EntryKey(topicPrefix, Wrap32(last.value + 1))), cursorKey, watched, rival)
  }

  /** The end of a pass, from store `s1` after `read()` returned `entry`: the rival's increment if
      any, then `goNext`, which commits only if the cursor's version is still `watched`. */
  function Advance(s1: RedisCache.KV, entry: Option<string>, cursorKey: string, watched: nat, rival: bool): (Turn, RedisCache.KV)
  {
    var s2 := if rival then RedisCache.Run(s1, [RedisCache.IncrCmd(cursorKey)]).0 else s1;
    if RedisCache.VersionOf(s2.version, cursorKey) != watched then (Again, s2)
    else
      var r := RedisCache.Run(s2, [RedisCache.IncrCmd(cursorKey)]);
      if !IsEmptyCollection(Some(r.1)) && entry.Some? then (Finish(Returned(Decode(entry.value))), r.0)
      else (Again, r.0)
  }

  /** A rival's increment always wins the race: it moves the cursor's version, so our exec
      aborts and the pass goes round with the rival's increment alone. */
  lemma AdvanceLosesToRival(s1: RedisCache.KV, entry: Option<string>, cursorKey: string, watched: nat, c: int)
    requires MIN64 <= c < MAX64 && cursorKey in s1.data && s1.data[cursorKey] == IntToString(c)
    requires RedisCache.VersionOf(s1.version, cursorKey) >= watched
    ensures Advance(s1, entry, cursorKey, watched, true).0 == Again
    ensures Advance(s1, entry, cursorKey, watched, true).1
         == RedisCache.KV(s1.data[cursorKey := IntToString(c + 1)], s1.expiry, RedisCache.Bump(s1.version, cursorKey))
  {
    IncrAdvancesCursor(s1, cursorKey, c);
  }

  /** Alone, with the cursor's version moved since the watch, the exec aborts and nothing more
      is written. */
  lemma AdvanceAborts(s1: RedisCache.KV, entry: Option<string>, cursorKey: string, watched: nat)
    requires RedisCache.VersionOf(s1.version, cursorKey) != watched
    ensures Advance(s1, entry, cursorKey, watched, false) == (Again, s1)
  {
  }

  /** Alone, with the cursor's version as watched, the exec commits the increment; the pass
      delivers the decoded entry when there was one and goes round otherwise. */
  lemma AdvanceCommits(s1: RedisCache.KV, entry: Option<string>, cursorKey: string, watched: nat, c: int)
    requires MIN64 <= c < MAX64 && cursorKey in s1.data && s1.data[cursorKey] == IntToString(c)
    requires RedisCache.VersionOf(s1.version, cursorKey) == watched
    ensures Advance(s1, entry, cursorKey, watched, false).0
         == if entry.Some? then Finish(Returned(Decode(entry.value))) else Again
    ensures Advance(s1, entry, cursorKey, watched, false).1
         == RedisCache.KV(s1.data[cursorKey := IntToString(c + 1)], s1.expiry, RedisCache.Bump(s1.version, cursorKey))
  {
    IncrAdvancesCursor(s1, cursorKey, c);
  }

  /** A pass that throws or finds nothing unread ends there, with the store `getLastReadMessage()` left. */
  lemma PassEnds(s: RedisCache.KV, topicPrefix: string, cursorKey: string, rival: bool)
    requires Unread(StartSize(s.data, topicPrefix), StartCursor(s.data, topicPrefix, cursorKey)).Returned? ==>
             Unread(StartSize(s.data, topicPrefix), StartCursor(s.data, topicPrefix, cursorKey)).value <= 0
    ensures Pass(s, topicPrefix, cursorKey, rival).1 == AfterLastRead(s, topicPrefix, cursorKey)
    ensures Pass(s, topicPrefix, cursorKey, rival).0 ==
      Finish(if Unread(StartSize(s.data, topicPrefix), StartCursor(s.data, topicPrefix, cursorKey)).Threw? then Threw
             else Returned(None))
  {
  }

  /** A pass that finds something unread reads the entry after the cursor and tries to advance. */
  lemma PassGoesOn(s: RedisCache.KV, topicPrefix: string, cursorKey: string, rival: bool, size: int, c: int)
    requires StartSize(s.data, topicPrefix) == Returned(size)
    requires StartCursor(s.data, topicPrefix, cursorKey) == Returned(c)
    requires Wrap32(size - c) > 0
    ensures Pass(s, topicPrefix, cursorKey, rival) ==
      Advance(AfterLastRead(s, topicPrefix, cursorKey),
              RedisCache.Lookup(true, AfterLastRead(s, topicPrefix, cursorKey).data, EntryKey(topicPrefix, Wrap32(c + 1))),
              cursorKey, RedisCache.VersionOf(s.version, cursorKey), rival)
  {
  }

  /** A pass that finds nothing unread ends the read with null. */
  lemma PassStops(s: RedisCache.KV, topicPrefix: string, cursorKey: string, rival: bool, size: int, c: int)
    requires StartSize(s.data, topicPrefix) == Returned(size)
    requires StartCursor(s.data, topicPrefix, cursorKey) == Returned(c)
    requires Wrap32(size - c) <= 0
    ensures Pass(s, topicPrefix, cursorKey, rival) == (Finish(Returned(None)), AfterLastRead(s, topicPrefix, cursorKey))
  {
  }

  /** A 32-bit difference of a size and a cursor in their usual ranges is positive exactly
      when the plain difference is, and then it is the plain difference. */
  lemma UnreadPositive(size: int, c: int)
    requires 0 <= size <= MAX32 && -1 <= c <= MAX32 && Wrap32(size - c) > 0
    ensures 0 < size - c <= MAX32 && Wrap32(c + 1) == c + 1
  {
  }

  /** Once `getLastReadMessage()` has reported `c` from a sane cursor, the store `s1` it leaves
      holds the cursor canonically at `c`; if it wrote anything, the cursor was blank and its
      version moved. */
  lemma SettledCursor(s: RedisCache.KV, topicPrefix: string, subscriberKey: string, s1: RedisCache.KV, c: int)
    requires CursorSane(s.data, CursorKey(topicPrefix, subscriberKey))
    requires StartCursor(s.data, topicPrefix, CursorKey(topicPrefix, subscriberKey)) == Returned(c)
    requires s1 == AfterLastRead(s, topicPrefix, CursorKey(topicPrefix, subscriberKey))
    ensures CursorKey(topicPrefix, subscriberKey) in s1.data && s1.data[CursorKey(topicPrefix, subscriberKey)] == IntToString(c)
    ensures CursorSane(s1.data, CursorKey(topicPrefix, subscriberKey))
    ensures Progress(s1.data, CursorKey(topicPrefix, subscriberKey)) == MAX32 + 1 - c
    ensures RedisCache.OnlyTouches(s, s1, CursorKey(topicPrefix, subscriberKey))
    ensures s1 != s ==> && Progress(s.data, CursorKey(topicPrefix, subscriberKey)) == 0x2_0000_0000
                        && RedisCache.VersionOf(s1.version, CursorKey(topicPrefix, subscriberKey))
                           > RedisCache.VersionOf(s.version, CursorKey(topicPrefix, subscriberKey))
  {
    AfterLastReadSettles(s, topicPrefix, subscriberKey);
    AfterLastReadFrame(s, topicPrefix, subscriberKey);
    CursorText(c);
  }

  /** A pass touches nothing but the cursor. */
  lemma PassFrame(s: RedisCache.KV, topicPrefix: string, subscriberKey: string, rival: bool)
    ensures RedisCache.OnlyTouches(s, Pass(s, topicPrefix, CursorKey(topicPrefix, subscriberKey), rival).1,
                                   CursorKey(topicPrefix, subscriberKey))
  {
    var ck := CursorKey(topicPrefix, subscriberKey);
    var s1 := AfterLastRead(s, topicPrefix, ck);
    AfterLastReadFrame(s, topicPrefix, subscriberKey);
    var u := Unread(StartSize(s.data, topicPrefix), StartCursor(s.data, topicPrefix, ck));
    if u.Threw? || u.value <= 0 {
      PassEnds(s, topicPrefix, ck, rival);
    } else {
      PassGoesOn(s, topicPrefix, ck, rival, StartSize(s.data, topicPrefix).value, StartCursor(s.data, topicPrefix, ck).value);
      var s2 := if rival then RedisCache.Run(s1, [RedisCache.IncrCmd(ck)]).0 else s1;
      RedisCache.IncrOnlyTouches(s1, ck);
      RedisCache.OnlyTouchesTrans(s, s1, RedisCache.Run(s1, [RedisCache.IncrCmd(ck)]).0, ck);
      RedisCache.IncrOnlyTouches(s2, ck);
      RedisCache.OnlyTouchesTrans(s, s2, RedisCache.Run(s2, [RedisCache.IncrCmd(ck)]).0, ck);
    }
  }

  /** A pass keeps a sane cursor sane and never moves it away from the end; a pass that goes
      round has moved it strictly nearer, so the read loop cannot go round for ever. */
  lemma PassProgress(s: RedisCache.KV, topicPrefix: string, subscriberKey: string, rival: bool, t: Turn, s': RedisCache.KV)
    requires CursorSane(s.data, CursorKey(topicPrefix, subscriberKey))
    requires (t, s') == Pass(s, topicPrefix, CursorKey(topicPrefix, subscriberKey), rival)
    ensures CursorSane(s'.data, CursorKey(topicPrefix, subscriberKey))
    ensures Progress(s'.data, CursorKey(topicPrefix, subscriberKey)) <= Progress(s.data, CursorKey(topicPrefix, subscriberKey))
    ensures t.Again? || (t.Finish? && t.result.Returned? && t.result.value.Some?) ==>
              Progress(s'.data, CursorKey(topicPrefix, subscriberKey)) < Progress(s.data, CursorKey(topicPrefix, subscriberKey))
  {
    var ck := CursorKey(topicPrefix, subscriberKey);
    var s1 := AfterLastRead(s, topicPrefix, ck);
    var u := Unread(StartSize(s.data, topicPrefix), StartCursor(s.data, topicPrefix, ck));
    if u.Threw? || u.value <= 0 {
      PassEnds(s, topicPrefix, ck, rival);
      AfterLastReadProgress(s, topicPrefix, subscriberKey);
    } else {
      var c := StartCursor(s.data, topicPrefix, ck).value;
      PassGoesOn(s, topicPrefix, ck, rival, StartSize(s.data, topicPrefix).value, c);
      SettledCursor(s, topicPrefix, subscriberKey, s1, c);
      var entry := RedisCache.Lookup(true, s1.data, EntryKey(topicPrefix, Wrap32(c + 1)));
      var w := RedisCache.VersionOf(s.version, ck);
      if rival {
        AdvanceLosesToRival(s1, entry, ck, w, c);
      } else if RedisCache.VersionOf(s1.version, ck) != w {
        AdvanceAborts(s1, entry, ck, w);
      } else {
        AdvanceCommits(s1, entry, ck, w, c);
      }
      CursorAfterIncr(s1.data, ck, c);
    }
  }

  /** Whatever a pass delivers is the decoded entry at the index the cursor now holds, as the
      entries stood when the pass began. */
  lemma PassDelivers(s: RedisCache.KV, topicPrefix: string, subscriberKey: string, rival: bool, m: Message, s': RedisCache.KV)
    requires CursorSane(s.data, CursorKey(topicPrefix, subscriberKey))
    requires (Finish(Returned(Some(m))), s') == Pass(s, topicPrefix, CursorKey(topicPrefix, subscriberKey), rival)
    ensures DeliveredAt(s'.data, s.data, topicPrefix, CursorKey(topicPrefix, subscriberKey), m)
  {
    var ck := CursorKey(topicPrefix, subscriberKey);
    var s1 := AfterLastRead(s, topicPrefix, ck);
    var u := Unread(StartSize(s.data, topicPrefix), StartCursor(s.data, topicPrefix, ck));
    if u.Threw? || u.value <= 0 {
      PassEnds(s, topicPrefix, ck, rival);
    } else {
      var c := StartCursor(s.data, topicPrefix, ck).value;
      PassGoesOn(s, topicPrefix, ck, rival, StartSize(s.data, topicPrefix).value, c);
      SettledCursor(s, topicPrefix, subscriberKey, s1, c);
      var entry := RedisCache.Lookup(true, s1.data, EntryKey(topicPrefix, Wrap32(c + 1)));
      var w := RedisCache.VersionOf(s.version, ck);
      if rival {
        AdvanceLosesToRival(s1, entry, ck, w, c);
      } else if RedisCache.VersionOf(s1.version, ck) != w {
        AdvanceAborts(s1, entry, ck, w);
      } else {
        AdvanceCommits(s1, entry, ck, w, c);
        IncrementedText(c);
      }
    }
  }

  /** Alone on a healthy store, a pass that ends returns what `Drain` delivers from the
      cursor, and leaves the cursor where `Drain` stops. */
  lemma PassDrainsFinish(s: RedisCache.KV, topicPrefix: string, subscriberKey: string, size: int, c: int,
                         r: Attempt<Option<Message>>, s': RedisCache.KV)
    requires CursorSane(s.data, CursorKey(topicPrefix, subscriberKey))
    requires StartSize(s.data, topicPrefix) == Returned(size) && 0 <= size
    requires StartCursor(s.data, topicPrefix, CursorKey(topicPrefix, subscriberKey)) == Returned(c) && -1 <= c
    requires (Finish(r), s') == Pass(s, topicPrefix, CursorKey(topicPrefix, subscriberKey), false)
    ensures r == Returned(Delivery(Drain(s.data, topicPrefix, size, c)))
    ensures CursorKey(topicPrefix, subscriberKey) in s'.data
    ensures s'.data[CursorKey(topicPrefix, subscriberKey)] == IntToString(Drain(s.data, topicPrefix, size, c).cursor)
  {
    var ck := CursorKey(topicPrefix, subscriberKey);
    var s1 := AfterLastRead(s, topicPrefix, ck);
    SettledCursor(s, topicPrefix, subscriberKey, s1, c);
    if Wrap32(size - c) <= 0 {
      PassStops(s, topicPrefix, ck, false, size, c);
      DrainStops(s.data, topicPrefix, size, c);
    } else {
      UnreadPositive(size, c);
      PassGoesOn(s, topicPrefix, ck, false, size, c);
      var entry := RedisCache.Lookup(true, s1.data, EntryKey(topicPrefix, c + 1));
      var w := RedisCache.VersionOf(s.version, ck);
      if RedisCache.VersionOf(s1.version, ck) != w {
        AdvanceAborts(s1, entry, ck, w);
      } else {
        AdvanceCommits(s1, entry, ck, w, c);
        assert s1 == s && entry.Some?;
        DrainNext(s.data, topicPrefix, size, c);
      }
    }
  }

  /** Alone on a healthy store, a pass that goes round leaves the store healthy, the topic size
      as it was, the cursor no further back, and the same `Drain` ahead. */
  lemma PassDrainsAgain(s: RedisCache.KV, topicPrefix: string, subscriberKey: string, size: int, c: int, s': RedisCache.KV)
    requires CursorSane(s.data, CursorKey(topicPrefix, subscriberKey))
    requires StartSize(s.data, topicPrefix) == Returned(size) && 0 <= size
    requires StartCursor(s.data, topicPrefix, CursorKey(topicPrefix, subscriberKey)) == Returned(c) && -1 <= c
    requires (Again, s') == Pass(s, topicPrefix, CursorKey(topicPrefix, subscriberKey), false)
    ensures StartSize(s'.data, topicPrefix) == Returned(size)
    ensures StartCursor(s'.data, topicPrefix, CursorKey(topicPrefix, subscriberKey)).Returned?
    ensures c <= StartCursor(s'.data, topicPrefix, CursorKey(topicPrefix, subscriberKey)).value <= MAX32
    ensures Drain(s'.data, topicPrefix, size, StartCursor(s'.data, topicPrefix, CursorKey(topicPrefix, subscriberKey)).value)
         == Drain(s.data, topicPrefix, size, c)
  {
    var ck := CursorKey(topicPrefix, subscriberKey);
    var s1 := AfterLastRead(s, topicPrefix, ck);
    SettledCursor(s, topicPrefix, subscriberKey, s1, c);
    if Wrap32(size - c) <= 0 {
      PassStops(s, topicPrefix, ck, false, size, c);
    } else {
      UnreadPositive(size, c);
      PassGoesOn(s, topicPrefix, ck, false, size, c);
      AfterLastReadIdempotent(s, topicPrefix, subscriberKey);
      var entry := RedisCache.Lookup(true, s1.data, EntryKey(topicPrefix, Wrap32(c + 1)));
      var w := RedisCache.VersionOf(s.version, ck);
      if RedisCache.VersionOf(s1.version, ck) != w {
        AdvanceAborts(s1, entry, ck, w);
        DrainFrame(s1.data, s.data, topicPrefix, subscriberKey, size, c);
      } else {
        AdvanceCommits(s1, entry, ck, w, c);
        StartAfterIncr(s.data, topicPrefix, subscriberKey, c);
        SkipAbsent(s.data, topicPrefix, size, c);
        DrainFrame(s'.data, s.data, topicPrefix, subscriberKey, size, c + 1);
      }
    }
  }

  /** A delivery stays a delivery when the stores it is read against differ only at the cursor. */
  lemma DeliveredAtFrame(data: map<string, string>, b1: map<string, string>, b2: map<string, string>,
                         topicPrefix: string, subscriberKey: string, m: Message)
    requires DeliveredAt(data, b1, topicPrefix, CursorKey(topicPrefix, subscriberKey), m)
    requires b1 - {CursorKey(topicPrefix, subscriberKey)} == b2 - {CursorKey(topicPrefix, subscriberKey)}
    ensures DeliveredAt(data, b2, topicPrefix, CursorKey(topicPrefix, subscriberKey), m)
  {
    var ck := CursorKey(topicPrefix, subscriberKey);
    var n := Wrap32(RedisInt(data[ck]).value);
    var e := EntryKey(topicPrefix, n);
    SlotKindsDistinct(topicPrefix, n, subscriberKey);
    assert e in b1 - {ck};
    assert b1[e] == (b1 - {ck})[e] == (b2 - {ck})[e] == b2[e];
  }

  /** Alone on a healthy topic, one `readUntilEnd()` that handed over `m` (or nothing) from a
      cursor at `c` consumed the first of the subscriber's remaining deliveries (or found none
      left), and leaves a cursor from which the rest follow, against the same topic size. The
      entries are those of `s`, from which the stores before and after differ only at the cursor. */
  lemma ReadAdvances(s: map<string, string>, before: map<string, string>, after: map<string, string>,
                     topicPrefix: string, subscriberKey: string, m: Option<Message>)
    requires before - {CursorKey(topicPrefix, subscriberKey)} == s - {CursorKey(topicPrefix, subscriberKey)}
    requires after - {CursorKey(topicPrefix, subscriberKey)} == s - {CursorKey(topicPrefix, subscriberKey)}
    requires Healthy(before, topicPrefix, CursorKey(topicPrefix, subscriberKey))
    requires m == Delivery(NextDrain(before, topicPrefix, CursorKey(topicPrefix, subscriberKey)))
    requires CursorKey(topicPrefix, subscriberKey) in after
    requires after[CursorKey(topicPrefix, subscriberKey)] == IntToString(NextDrain(before, topicPrefix, CursorKey(topicPrefix, subscriberKey)).cursor)
    ensures Healthy(after, topicPrefix, CursorKey(topicPrefix, subscriberKey))
    ensures StartSize(after, topicPrefix) == StartSize(before, topicPrefix)
    ensures StartCursor(after, topicPrefix, CursorKey(topicPrefix, subscriberKey))
         == Returned(NextDrain(before, topicPrefix, CursorKey(topicPrefix, subscriberKey)).cursor)
    ensures CursorSane(after, CursorKey(topicPrefix, subscriberKey))
    ensures var size, c := StartSize(before, topicPrefix).value, StartCursor(before, topicPrefix, CursorKey(topicPrefix, subscriberKey)).value;
      && (m.None? ==> Deliveries(s, topicPrefix, size, c) == [])
      && (m.Some? ==> Deliveries(s, topicPrefix, size, c)
                      == [m.value] + Deliveries(s, topicPrefix, size, StartCursor(after, topicPrefix, CursorKey(topicPrefix, subscriberKey)).value))
  {
    var ck := CursorKey(topicPrefix, subscriberKey);
    var size, c := StartSize(before, topicPrefix).value, StartCursor(before, topicPrefix, ck).value;
    var d := Drain(before, topicPrefix, size, c);
    DrainFrame(before, s, topicPrefix, subscriberKey, size, c);
    DeliveriesStep(s, topicPrefix, size, c);
    CursorText(d.cursor);
    var k := CounterKey(topicPrefix);
    SlotKindsDistinct(topicPrefix, 0, subscriberKey);
    assert (k in after) == (k in after - {ck}) && (k in before) == (k in before - {ck});
    if k in after {
      assert after[k] == (after - {ck})[k] == (before - {ck})[k] == before[k];
    }
  }

  /** What one pass of `readUntilEnd()` keeps, from a store `s` reached from `s0` by earlier
      passes: the cursor stays sane and no other key changes; a pass that goes round moves the
      cursor nearer the end; a delivery is the decoded entry at the new cursor as the entries
      stood in `s0`; and when no rival interferes and the store was healthy, the `Drain` ahead
      stays `d`, which a pass that ends returns. */
  lemma PassKeeps(s0: RedisCache.KV, s: RedisCache.KV, topicPrefix: string, subscriberKey: string, rival: bool,
                  t: Turn, s': RedisCache.KV, alone: bool, size: int, d: DrainResult)
    requires CursorSane(s.data, CursorKey(topicPrefix, subscriberKey))
    requires RedisCache.OnlyTouches(s0, s, CursorKey(topicPrefix, subscriberKey))
    requires alone ==> !rival && StartSize(s.data, topicPrefix) == Returned(size) && 0 <= size
    requires alone ==> StartCursor(s.data, topicPrefix, CursorKey(topicPrefix, subscriberKey)).Returned?
    requires alone ==> -1 <= StartCursor(s.data, topicPrefix, CursorKey(topicPrefix, subscriberKey)).value <= MAX32
    requires alone ==> Drain(s.data, topicPrefix, size, StartCursor(s.data, topicPrefix, CursorKey(topicPrefix, subscriberKey)).value) == d
    requires (t, s') == Pass(s, topicPrefix, CursorKey(topicPrefix, subscriberKey), rival)
    ensures CursorSane(s'.data, CursorKey(topicPrefix, subscriberKey))
    ensures RedisCache.OnlyTouches(s0, s', CursorKey(topicPrefix, subscriberKey))
    ensures Progress(s'.data, CursorKey(topicPrefix, subscriberKey)) <= Progress(s.data, CursorKey(topicPrefix, subscriberKey))
    ensures t.Again? || (t.Finish? && t.result.Returned? && t.result.value.Some?) ==>
              Progress(s'.data, CursorKey(topicPrefix, subscriberKey)) < Progress(s.data, CursorKey(topicPrefix, subscriberKey))
    ensures t.Finish? && t.result.Returned? && t.result.value.Some? ==>
              DeliveredAt(s'.data, s0.data, topicPrefix, CursorKey(topicPrefix, subscriberKey), t.result.value.value)
    ensures alone && t.Again? ==>
      && StartSize(s'.data, topicPrefix) == Returned(size)
      && StartCursor(s'.data, topicPrefix, CursorKey(topicPrefix, subscriberKey)).Returned?
      && -1 <= StartCursor(s'.data, topicPrefix, CursorKey(topicPrefix, subscriberKey)).value <= MAX32
      && Drain(s'.data, topicPrefix, size, StartCursor(s'.data, topicPrefix, CursorKey(topicPrefix, subscriberKey)).value) == d
    ensures alone && t.Finish? ==>
      && t.result == Returned(Delivery(d))
      && CursorKey(topicPrefix, subscriberKey) in s'.data
      && s'.data[CursorKey(topicPrefix, subscriberKey)] == IntToString(d.cursor)
  {
    var ck := CursorKey(topicPrefix, subscriberKey);
    PassFrame(s, topicPrefix, subscriberKey, rival);
    RedisCache.OnlyTouchesTrans(s0, s, s', ck);
    PassProgress(s, topicPrefix, subscriberKey, rival, t, s');
    if t.Finish? && t.result.Returned? && t.result.value.Some? {
      PassDelivers(s, topicPrefix, subscriberKey, rival, t.result.value.value, s');
      DeliveredAtFrame(s'.data, s.data, s0.data, topicPrefix, subscriberKey, t.result.value.value);
    }
    if alone {
      var c := StartCursor(s.data, topicPrefix, ck).value;
      if t.Finish? {
        PassDrainsFinish(s, topicPrefix, subscriberKey, size, c, t.result, s');
      } else {
        PassDrainsAgain(s, topicPrefix, subscriberKey, size, c, s');
      }
    }
  }

  /** Handing `m` to the callback moves it from the deliveries still ahead to those handled. */
  lemma HandOver(handled: seq<Message>, m: Message, rest: seq<Message>, all: seq<Message>)
    requires handled + ([m] + rest) == all
    ensures (handled + [m]) + rest == all
  {
    assert handled + ([m] + rest) == (handled + [m]) + rest;
  }

  /** `Consumer(topic, subscriber)`: the counter, entry and cursor queues of one subscriber. */
  class Consumer {
    const countRedisQueue: RedisQueue.RedisQueue
    const messageRedisQueue: RedisQueue.RedisQueue
    const subscribersRedisQueue: RedisQueue.RedisQueue

    ghost predicate Valid()
      reads countRedisQueue, messageRedisQueue, subscribersRedisQueue
    {
      && countRedisQueue != messageRedisQueue
      && countRedisQueue != subscribersRedisQueue
      && messageRedisQueue != subscribersRedisQueue
      && countRedisQueue.key == None && countRedisQueue.sb == None
      && messageRedisQueue.key == None && messageRedisQueue.sb == None
      && subscribersRedisQueue.sb == None
      && countRedisQueue.cacheType == TOPIC_COUNT_CACHETYPE
      && messageRedisQueue.cacheType == TOPIC_MESSAGE_CACHETYPE
      && subscribersRedisQueue.cacheType == TOPIC_SUBSCRIBERS_CACHETYPE
      && messageRedisQueue.topicPrefix == countRedisQueue.topicPrefix
      && subscribersRedisQueue.topicPrefix == countRedisQueue.topicPrefix
    }

    function Prefix(): string
    {
      countRedisQueue.topicPrefix
    }

    /** The subscriber's part of the cursor key: its id, or the default key when it is blank. */
    function SubscriberKey(): string
    {
      RedisQueue.KeyOf(subscribersRedisQueue.key, None)
    }

    function CursorKey(): string
    {
      Keys.CursorKey(Prefix(), SubscriberKey())
    }

    constructor (topic: string, subscriber: Option<string>)
      ensures Valid() && Prefix() == TopicPrefix(topic) && subscribersRedisQueue.key == subscriber
      ensures fresh(countRedisQueue) && fresh(messageRedisQueue) && fresh(subscribersRedisQueue)
    {
      countRedisQueue := new RedisQueue.RedisQueue(topic, TOPIC_COUNT_CACHETYPE);
      messageRedisQueue := new RedisQueue.RedisQueue(topic, TOPIC_MESSAGE_CACHETYPE);
      subscribersRedisQueue := new RedisQueue.RedisQueue.WithKey(topic, TOPIC_SUBSCRIBERS_CACHETYPE, subscriber);
    }

    /** `getTopicSize()`. */
    method GetTopicSize(store: RedisCache.Store) returns (a: Attempt<int>)
      requires Valid()
      modifies countRedisQueue
      ensures Valid()
      ensures a == TopicSize(RedisCache.Lookup(store.up, store.data, CounterKey(Prefix())))
    {
      var counter := countRedisQueue.Get(store);
      if counter.None? {
        return Returned(0);
      }
      match ParseInt(counter.value)
      case Some(n) => a := Returned(n);
      case None => a := Threw;
    }

    /** `getLastReadMessage()`: a blank cursor is created at `size - 1` before it is reported. */
    method GetLastReadMessage(store: RedisCache.Store) returns (a: Attempt<int>)
      requires Valid()
      modifies store, countRedisQueue, subscribersRedisQueue
      ensures Valid() && store.up == old(store.up)
      ensures a == LastRead(RedisCache.Lookup(old(store.up), old(store.data), CursorKey()),
                            RedisCache.Lookup(old(store.up), old(store.data), CounterKey(Prefix())))
      ensures store.State() ==
        if old(store.up) then AfterLastRead(old(store.State()), Prefix(), CursorKey()) else old(store.State())
    {
      ghost var s0, up, tp, ck := store.State(), store.up, Prefix(), CursorKey();
      var lastMessageRead := subscribersRedisQueue.Get(store);
      assert lastMessageRead == RedisCache.Lookup(up, s0.data, ck);
      if IsEmpty(lastMessageRead) {
        var size := GetTopicSize(store);
        if size.Threw? {
          LastReadNoSize(s0, up, tp, ck);
          return Threw;
        }
        var lowest := Wrap32(size.value - 1);
        var _ := subscribersRedisQueue.Set(store, IntToString(lowest), DEFAULT_EXPIRE_TIME);
        LastReadCreates(RedisCache.Lookup(up, s0.data, ck), RedisCache.Lookup(up, s0.data, CounterKey(tp)), size.value);
        if up {
          LastReadCreatesState(s0, tp, ck, size.value, store.State());
        }
        return Returned(lowest);
      }
      LastReadParses(s0, up, tp, ck, lastMessageRead.value);
      match ParseInt(lastMessageRead.value)
      case Some(n) => a := Returned(n);
      case None => a := Threw;
    }

    /** `read()`: the entry just after the cursor (`lastRead + 1`, 32-bit), or null. */
    method Read(store: RedisCache.Store) returns (a: Attempt<Option<string>>)
      requires Valid()
      modifies store, countRedisQueue, messageRedisQueue, subscribersRedisQueue
      ensures Valid() && store.up == old(store.up)
      ensures a == EntryAfter(LastRead(RedisCache.Lookup(old(store.up), old(store.data), CursorKey()),
                                       RedisCache.Lookup(old(store.up), old(store.data), CounterKey(Prefix()))),
                              store.up, store.data, Prefix())
      ensures store.State() ==
        if old(store.up) then AfterLastRead(old(store.State()), Prefix(), CursorKey()) else old(store.State())
    {
      var last := GetLastReadMessage(store);
      if last.Threw? {
        return Threw;
      }
      RedisQueue.CatIntIsOneShot(None, Wrap32(last.value + 1));
      var q := messageRedisQueue.CatInt(Wrap32(last.value + 1));
      var entry := q.Get(store);
      a := Returned(entry);
    }

    /** `unreadMessages()`: topic size minus cursor, as a 32-bit subtraction. */
    method UnreadMessages(store: RedisCache.Store) returns (a: Attempt<int>)
      requires Valid()
      modifies store, countRedisQueue, subscribersRedisQueue
      ensures Valid() && store.up == old(store.up)
      ensures a == Unread(TopicSize(RedisCache.Lookup(old(store.up), old(store.data), CounterKey(Prefix()))),
                          LastRead(RedisCache.Lookup(old(store.up), old(store.data), CursorKey()),
                                   RedisCache.Lookup(old(store.up), old(store.data), CounterKey(Prefix()))))
      ensures store.State() ==
        if old(store.up) then AfterLastRead(old(store.State()), Prefix(), CursorKey()) else old(store.State())
    {
      ghost var up, data := store.up, store.data;
      var size := GetTopicSize(store);
      assert store.up == up && store.data == data;
      if size.Threw? {
        return Threw;
      }
      var last := GetLastReadMessage(store);
      if last.Threw? {
        return Threw;
      }
      a := Returned(Wrap32(size.value - last.value));
      assert a == Unread(size, last);
    }

    /** `goNext(redisTransaction)`: queue an increment of the cursor and exec; null when a watched
        key moved since it was watched. */
    method GoNext(redisTransaction: RedisQueue.RedisTransaction) returns (r: Option<seq<RedisCache.Reply>>)
      requires Valid()
      modifies redisTransaction.transaction, redisTransaction.transaction.store, subscribersRedisQueue
      ensures Valid()
      ensures var t := redisTransaction.transaction;
        && t.watched == map[] && t.queued == None && t.store.up == old(t.store.up)
        && (RedisCache.WatchHolds(old(t.watched), old(t.store.version)) ==>
              r == Some(RedisCache.Run(old(t.store.State()), [RedisCache.IncrCmd(CursorKey())]).1)
              && t.store.State() == RedisCache.Run(old(t.store.State()), [RedisCache.IncrCmd(CursorKey())]).0)
        && (!RedisCache.WatchHolds(old(t.watched), old(t.store.version)) ==>
              r == None && t.store.State() == old(t.store.State()))
    {
      redisTransaction.Multi();
      var _ := redisTransaction.Incr(subscribersRedisQueue);
      r := redisTransaction.Exec();
    }

    /** The first half of a pass: watch the cursor, then `unreadMessages()`. */
    method Check(redisTransaction: RedisQueue.RedisTransaction, store: RedisCache.Store) returns (unread: Attempt<int>)
      requires Valid() && redisTransaction.transaction.store == store && store.up
      requires redisTransaction.transaction.watched == map[] && redisTransaction.transaction.queued == None
      modifies store, redisTransaction.transaction, countRedisQueue, subscribersRedisQueue
      ensures Valid() && store.up && redisTransaction.transaction.queued == None
      ensures redisTransaction.transaction.watched == map[CursorKey() := RedisCache.VersionOf(old(store.version), CursorKey())]
      ensures store.State() == AfterLastRead(old(store.State()), Prefix(), CursorKey())
      ensures unread == Unread(StartSize(old(store.data), Prefix()), StartCursor(old(store.data), Prefix(), CursorKey()))
    {
      ghost var s0 := store.State();
      var _ := redisTransaction.Watch(subscribersRedisQueue);
      assert store.State() == s0;
      unread := UnreadMessages(store);
    }

    /** The second half of a pass, once the cursor reads as `last` and is watched at version
        `watched`: `read()`, the rival's increment if any, and `goNext`. */
    method Fetch(redisTransaction: RedisQueue.RedisTransaction, store: RedisCache.Store, rival: bool,
                 ghost last: int, ghost watched: nat) returns (t: Turn)
      requires Valid() && redisTransaction.transaction.store == store && store.up
      requires redisTransaction.transaction.queued == None
      requires redisTransaction.transaction.watched == map[CursorKey() := watched]
      requires StartCursor(store.data, Prefix(), CursorKey()) == Returned(last)
      requires AfterLastRead(store.State(), Prefix(), CursorKey()) == store.State()
      modifies store, redisTransaction.transaction, countRedisQueue, messageRedisQueue, subscribersRedisQueue
      ensures Valid() && store.up
      ensures t.Again? ==> redisTransaction.transaction.watched == map[] && redisTransaction.transaction.queued == None
      ensures (t, store.State()) == Advance(old(store.State()), RedisCache.Lookup(true, old(store.data), EntryKey(Prefix(), Wrap32(last + 1))),
                                            CursorKey(), watched, rival)
    {
      ghost var s1, ck := store.State(), CursorKey();
      ghost var entry0 := RedisCache.Lookup(true, s1.data, EntryKey(Prefix(), Wrap32(last + 1)));
      var message := Read(store);
      assert store.State() == s1;
      assert message == Returned(entry0);
      // The cursor was read without error just before, and nothing ran since, so this read of it
      // succeeds too.
      var entry := if message.Returned? then message.value else None;
      t := Commit(redisTransaction, store, entry, rival, watched);
    }

    /** The end of a pass, once `read()` returned `entry`: the rival's increment if any, then
        `goNext`; a committed exec with the entry present delivers the decoded entry. */
    method Commit(redisTransaction: RedisQueue.RedisTransaction, store: RedisCache.Store, entry: Option<string>,
                  rival: bool, ghost watched: nat) returns (t: Turn)
      requires Valid() && redisTransaction.transaction.store == store && store.up
      requires redisTransaction.transaction.queued == None
      requires redisTransaction.transaction.watched == map[CursorKey() := watched]
      modifies store, redisTransaction.transaction, subscribersRedisQueue
      ensures Valid() && store.up
      ensures t.Again? ==> redisTransaction.transaction.watched == map[] && redisTransaction.transaction.queued == None
      ensures (t, store.State()) == Advance(old(store.State()), entry, CursorKey(), watched, rival)
    {
      if rival {
        store.Incr(CursorKey());
      }
      RedisCache.WatchOne(CursorKey(), watched, store.version);
      var next := GoNext(redisTransaction);
      if !IsEmptyCollection(next) && entry.Some? {
        return Finish(Returned(Decode(entry.value)));
      }
      return Again;
    }

    /** One pass of the `readUntilEnd` loop on the transaction's connection, as `Pass` describes.
        `rival` says whether another reader with the same cursor increments it before our exec. */
    method Turn(redisTransaction: RedisQueue.RedisTransaction, store: RedisCache.Store, rival: bool) returns (t: Turn)
      requires Valid() && redisTransaction.transaction.store == store && store.up
      requires redisTransaction.transaction.watched == map[] && redisTransaction.transaction.queued == None
      modifies store, redisTransaction.transaction, countRedisQueue, messageRedisQueue, subscribersRedisQueue
      ensures Valid() && store.up
      ensures t.Again? ==> redisTransaction.transaction.watched == map[] && redisTransaction.transaction.queued == None
      ensures (t, store.State()) == Pass(old(store.State()), Prefix(), CursorKey(), rival)
    {
      ghost var s0, tp, ck := store.State(), Prefix(), CursorKey();
      ghost var size, last := StartSize(s0.data, tp), StartCursor(s0.data, tp, ck);
      ghost var v0, s1 := RedisCache.VersionOf(s0.version, ck), AfterLastRead(s0, tp, ck);
      assert Pass(s0, tp, ck, rival) == PassFrom(size, last, s1, tp, ck, v0, rival);
      var unread := Check(redisTransaction, store);
      if unread.Threw? {
        return Finish(Threw);
      }
      if unread.value <= 0 {
        return Finish(Returned(None));
      }
      AfterLastReadIdempotent(s0, tp, SubscriberKey());
      t := Fetch(redisTransaction, store, rival, last.value, v0);
    }

    /** `readUntilEnd()`: on one connection, passes until one ends, the outcome going through
        `execOnSameRedisConn`. `rivals[i]` says whether another reader of the same cursor
        increments it during pass `i`; none does once the list is used up. */
    method ReadUntilEnd(store: RedisCache.Store, rivals: seq<bool>) returns (m: Option<Message>)
      requires Valid() && CursorSane(store.data, CursorKey())
      modifies store, countRedisQueue, messageRedisQueue, subscribersRedisQueue
      ensures Valid() && store.up == old(store.up) && CursorSane(store.data, CursorKey())
      ensures RedisCache.OnlyTouches(old(store.State()), store.State(), CursorKey())
      ensures !old(store.up) ==> m == None && store.State() == old(store.State())
      ensures Progress(store.data, CursorKey()) <= Progress(old(store.data), CursorKey())
      ensures m.Some? ==> Progress(store.data, CursorKey()) < Progress(old(store.data), CursorKey())
      ensures m.Some? ==> DeliveredAt(store.data, old(store.data), Prefix(), CursorKey(), m.value)
      ensures old(store.up) && true !in rivals && Healthy(old(store.data), Prefix(), CursorKey()) ==>
        && m == Delivery(NextDrain(old(store.data), Prefix(), CursorKey()))
        && CursorKey() in store.data
        && store.data[CursorKey()] == IntToString(NextDrain(old(store.data), Prefix(), CursorKey()).cursor)
    {
      if !store.up {
        return RedisCache.ExecOnSameRedisConn(false, Threw);
      }
      ghost var s0, tp, ck, sub := store.State(), Prefix(), CursorKey(), SubscriberKey();
      ghost var alone := true !in rivals && Healthy(s0.data, tp, ck);
      ghost var size0 := if alone then StartSize(s0.data, tp).value else 0;
      ghost var d0 := if alone then NextDrain(s0.data, tp, ck) else Drained(0);
      var transaction := new RedisCache.Transaction(store);
      var redisTransaction := new RedisQueue.RedisTransaction.InitTransaction(transaction);
      var i := 0;
      var outcome: Attempt<Option<Message>>;
      while true
        invariant Valid() && store.up
        invariant transaction.store == store && redisTransaction.transaction == transaction
        invariant transaction.watched == map[] && transaction.queued == None
        invariant CursorSane(store.data, ck)
        invariant RedisCache.OnlyTouches(s0, store.State(), ck)
        invariant Progress(store.data, ck) <= Progress(s0.data, ck)
        invariant alone ==>
          && StartSize(store.data, tp) == Returned(size0)
          && StartCursor(store.data, tp, ck).Returned?
          && -1 <= StartCursor(store.data, tp, ck).value <= MAX32
          && Drain(store.data, tp, size0, StartCursor(store.data, tp, ck).value) == d0
        decreases Progress(store.data, ck)
      {
        var rival := i < |rivals| && rivals[i];
        ghost var before := store.State();
        var t := Turn(redisTransaction, store, rival);
        PassKeeps(s0, before, tp, sub, rival, t, store.State(), alone, size0, d0);
        if t.Finish? {
          outcome := t.result;
          break;
        }
        i := i + 1;
      }
      m := RedisCache.ExecOnSameRedisConn(true, outcome);
    }

    /** `consume()`: one `readUntilEnd()`. */
    method Consume(store: RedisCache.Store, rivals: seq<bool>) returns (m: Option<Message>)
      requires Valid() && CursorSane(store.data, CursorKey())
      modifies store, countRedisQueue, messageRedisQueue, subscribersRedisQueue
      ensures Valid() && store.up == old(store.up) && CursorSane(store.data, CursorKey())
      ensures RedisCache.OnlyTouches(old(store.State()), store.State(), CursorKey())
      ensures !old(store.up) ==> m == None && store.State() == old(store.State())
      ensures Progress(store.data, CursorKey()) <= Progress(old(store.data), CursorKey())
      ensures m.Some? ==> Progress(store.data, CursorKey()) < Progress(old(store.data), CursorKey())
      ensures m.Some? ==> DeliveredAt(store.data, old(store.data), Prefix(), CursorKey(), m.value)
      ensures old(store.up) && true !in rivals && Healthy(old(store.data), Prefix(), CursorKey()) ==>
        && m == Delivery(NextDrain(old(store.data), Prefix(), CursorKey()))
        && CursorKey() in store.data
        && store.data[CursorKey()] == IntToString(NextDrain(old(store.data), Prefix(), CursorKey()).cursor)
    {
      m := ReadUntilEnd(store, rivals);
    }

    /** `consume(callback)`: `readUntilEnd()` again and again, handing each message to the
        callback, until one returns null; `handled` lists what the callback received, in order.
        No other reader of the same cursor runs meanwhile. Alone on a healthy topic the callback
        receives exactly the subscriber's remaining deliveries. */
    method ConsumeAll(store: RedisCache.Store) returns (handled: seq<Message>)
      requires Valid() && CursorSane(store.data, CursorKey())
      modifies store, countRedisQueue, messageRedisQueue, subscribersRedisQueue
      ensures Valid() && store.up == old(store.up) && CursorSane(store.data, CursorKey())
      ensures RedisCache.OnlyTouches(old(store.State()), store.State(), CursorKey())
      ensures !old(store.up) ==> handled == []
      ensures old(store.up) && Healthy(old(store.data), Prefix(), CursorKey()) ==>
        handled == Deliveries(old(store.data), Prefix(), StartSize(old(store.data), Prefix()).value,
                              StartCursor(old(store.data), Prefix(), CursorKey()).value)
    {
      ghost var s0, tp, ck, sub := store.State(), Prefix(), CursorKey(), SubscriberKey();
      ghost var healthy := store.up && Healthy(s0.data, tp, ck);
      ghost var size0 := if healthy then StartSize(s0.data, tp).value else 0;
      ghost var all := if healthy then Deliveries(s0.data, tp, size0, StartCursor(s0.data, tp, ck).value) else [];
      handled := [];
      while true
        invariant Valid() && store.up == old(store.up) && CursorSane(store.data, ck)
        invariant RedisCache.OnlyTouches(s0, store.State(), ck)
        invariant !store.up ==> handled == []
        invariant healthy ==>
          && Healthy(store.data, tp, ck) && StartSize(store.data, tp) == Returned(size0)
          && handled + Deliveries(s0.data, tp, size0, StartCursor(store.data, tp, ck).value) == all
        decreases Progress(store.data, ck)
      {
        ghost var before := store.State();
        var message := ReadUntilEnd(store, []);
        RedisCache.OnlyTouchesTrans(s0, before, store.State(), ck);
        if healthy {
          ReadAdvances(s0.data, before.data, store.data, tp, sub, message);
        }
        if message.None? {
          break;
        }
        if healthy {
          HandOver(handled, message.value, Deliveries(s0.data, tp, size0, StartCursor(store.data, tp, ck).value), all);
        }
        handled := handled + [message.value];
      }
    }
  }
}
