/** The key-value store the queue runs on, and the parts of `RedisCache` the queue uses:
    `get`/`set` on a full key, `execOnSameRedisConn`, and the optimistic transaction
    (`RedisCache.RedisTransaction`: watch, multi, queued set/expire/incr, exec). */
module RedisCache {
  import opened Wrappers
  import opened JavaInt

  /** A write the server applies: SET (which also clears the key's time-to-live), EXPIRE, INCR. */
  datatype Command = SetCmd(key: string, value: string) | ExpireCmd(key: string, seconds: int) | IncrCmd(key: string)

  /** The server's answer to one command. */
  datatype Reply = Ok | IntReply(n: int) | ErrReply

  /** A snapshot of the server: the values, the keys that carry a time-to-live (in seconds),
      and a per-key version that every write increases and WATCH remembers. */
  datatype KV = KV(data: map<string, string>, expiry: map<string, int>, version: map<string, nat>)

  function VersionOf(version: map<string, nat>, k: string): nat
  {
    if k in version then version[k] else 0
  }

  function Bump(version: map<string, nat>, k: string): (r: map<string, nat>)
    ensures VersionOf(r, k) > VersionOf(version, k)
    ensures forall j :: j != k ==> VersionOf(r, j) == VersionOf(version, j)
  {
    version[k := VersionOf(version, k) + 1]
  }

  /** The value INCR stores: an absent key counts as 0; otherwise the value must be the
      canonical decimal form of a 64-bit integer below the maximum. */
  function IncrValue(data: map<string, string>, k: string): (r: Option<int>)
    ensures k !in data ==> r == Some(1)
    ensures k in data && r.Some? ==> RedisInt(data[k]) == Some(r.value - 1)
  {
    if k !in data then Some(1)
    else match RedisInt(data[k])
      case Some(n) => if n < MAX64 then Some(n + 1) else None
      case None => None
  }

  /** The commands `set(fullKey, value, expireSeconds)` issues: the SET, and an EXPIRE only
      when the time-to-live is positive. */
  function SetCommands(fullKey: string, value: string, expireSeconds: int): (cmds: seq<Command>)
    ensures |cmds| == (if expireSeconds > 0 then 2 else 1)
    ensures cmds[0] == SetCmd(fullKey, value)
    ensures expireSeconds > 0 ==> cmds[1] == ExpireCmd(fullKey, expireSeconds)
  {
    [SetCmd(fullKey, value)] + (if expireSeconds > 0 then [ExpireCmd(fullKey, expireSeconds)] else [])
  }

  /** One command applied to a snapshot. */
  function Step(s: KV, c: Command): (KV, Reply)
  {
    match c
    case SetCmd(k, v) => (KV(s.data[k := v], s.expiry - {k}, Bump(s.version, k)), Ok)
    case ExpireCmd(k, secs) =>
      if k in s.data then (KV(s.data, s.expiry[k := secs], Bump(s.version, k)), IntReply(1))
      else (s, IntReply(0))
    case IncrCmd(k) =>
      match IncrValue(s.data, k)
      case Some(n) => (KV(s.data[k := IntToString(n)], s.expiry, Bump(s.version, k)), IntReply(n))
      case None => (s, ErrReply)
  }

  /** A batch of commands applied in order, with one reply per command. */
  function Run(s: KV, cmds: seq<Command>): (r: (KV, seq<Reply>))
    ensures |r.1| == |cmds|
    decreases |cmds|
  {
    if cmds == [] then (s, [])
    else
      var step := Step(s, cmds[0]);
      var rest := Run(step.0, cmds[1..]);
      (rest.0, [step.1] + rest.1)
  }

  /** The keys a batch names. */
  function KeysOf(cmds: seq<Command>): set<string>
  {
    set i | 0 <= i < |cmds| :: cmds[i].key
  }

  /** A batch touches nothing but the keys it names: values, expiry and versions of every other
      key are as before. */
  lemma {:induction false} RunFrame(s: KV, cmds: seq<Command>, k: string)
    requires k !in KeysOf(cmds)
    ensures var t := Run(s, cmds).0;
      && (k in t.data <==> k in s.data) && (k in s.data ==> t.data[k] == s.data[k])
      && (k in t.expiry <==> k in s.expiry) && (k in s.expiry ==> t.expiry[k] == s.expiry[k])
      && VersionOf(t.version, k) == VersionOf(s.version, k)
    decreases |cmds|
  {
    if cmds != [] {
      assert cmds[0].key in KeysOf(cmds);
      assert KeysOf(cmds[1..]) <= KeysOf(cmds) by {
        forall j | j in KeysOf(cmds[1..]) ensures j in KeysOf(cmds) {
          var i :| 0 <= i < |cmds[1..]| && cmds[1..][i].key == j;
          assert cmds[i + 1].key == j;
        }
      }
      RunFrame(Step(s, cmds[0]).0, cmds[1..], k);
    }
  }

  /** A watched key's version never goes down, and a SET always moves it: so WATCH notices
      every SET made by anyone between the WATCH and the EXEC. */
  lemma {:induction false} RunVersions(s: KV, cmds: seq<Command>, k: string)
    ensures VersionOf(Run(s, cmds).0.version, k) >= VersionOf(s.version, k)
    ensures (exists i :: 0 <= i < |cmds| && cmds[i].SetCmd? && cmds[i].key == k)
            ==> VersionOf(Run(s, cmds).0.version, k) > VersionOf(s.version, k)
    decreases |cmds|
  {
    if cmds != [] {
      var s1 := Step(s, cmds[0]).0;
      assert VersionOf(s1.version, k) >= VersionOf(s.version, k);
      RunVersions(s1, cmds[1..], k);
      if exists i :: 0 <= i < |cmds| && cmds[i].SetCmd? && cmds[i].key == k {
        var i :| 0 <= i < |cmds| && cmds[i].SetCmd? && cmds[i].key == k;
        if i > 0 {
          assert cmds[1..][i - 1].SetCmd? && cmds[1..][i - 1].key == k;
        }
      }
    }
  }

  /** SET without a time-to-live: the new value, the key's time-to-live dropped, its version moved. */
  lemma SetWithoutExpiry(s: KV, k: string, v: string)
    ensures Run(s, SetCommands(k, v, 0)).0 == KV(s.data[k := v], s.expiry - {k}, Bump(s.version, k))
  {
    assert SetCommands(k, v, 0) == [SetCmd(k, v)];
    assert SetCommands(k, v, 0)[1..] == [];
  }

  /** `t` differs from `s` at most at key `k`: values, time-to-live and version of every other key agree. */
  ghost predicate OnlyTouches(s: KV, t: KV, k: string)
  {
    && t.data - {k} == s.data - {k}
    && t.expiry - {k} == s.expiry - {k}
    && forall j :: j != k ==> VersionOf(t.version, j) == VersionOf(s.version, j)
  }

  /** INCR touches only its own key. */
  lemma IncrOnlyTouches(s: KV, k: string)
    ensures OnlyTouches(s, Run(s, [IncrCmd(k)]).0, k)
  {
    var cmds := [IncrCmd(k)];
    assert cmds[1..] == [];
    assert Run(Step(s, cmds[0]).0, cmds[1..]).0 == Step(s, cmds[0]).0;
    var t := Run(s, cmds).0;
    assert t == Step(s, IncrCmd(k)).0;
    if IncrValue(s.data, k).Some? {
      assert t.data == s.data[k := IntToString(IncrValue(s.data, k).value)];
      assert t.data - {k} == s.data - {k};
    }
  }

  lemma OnlyTouchesTrans(s: KV, t: KV, u: KV, k: string)
    requires OnlyTouches(s, t, k) && OnlyTouches(t, u, k)
    ensures OnlyTouches(s, u, k)
  {
  }

  /** No watched key has changed version since it was watched. */
  predicate WatchHolds(watched: map<string, nat>, version: map<string, nat>)
  {
    forall k :: k in watched ==> VersionOf(version, k) == watched[k]
  }

  /** A transaction watching one key commits exactly when that key's version is unchanged. */
  lemma WatchOne(k: string, n: nat, version: map<string, nat>)
    ensures WatchHolds(map[k := n], version) <==> VersionOf(version, k) == n
  {
    assert k in map[k := n];
  }

  /** `execOnSameRedisConn(function)`: null when no pooled connection can be had or when the
      function throws, otherwise whatever the function returned. */
  function ExecOnSameRedisConn<R>(connected: bool, run: Attempt<Option<R>>): (r: Option<R>)
    ensures r.Some? <==> connected && run.Returned? && run.value.Some?
    ensures r.Some? ==> r == run.value
  {
    if connected && run.Returned? then run.value else None
  }

  /** What a client reads at a key: nothing without a connection or when the key is absent. */
  function Lookup(up: bool, data: map<string, string>, k: string): Option<string>
  {
    if up && k in data then Some(data[k]) else None
  }

  /** The server together with the availability of a pooled connection. */
  class Store {
    var up: bool
    var data: map<string, string>
    var expiry: map<string, int>
    var version: map<string, nat>

    function State(): KV
      reads this
    {
      KV(data, expiry, version)
    }

    function Version(k: string): nat
      reads this
    {
      VersionOf(version, k)
    }

    constructor (up: bool)
      ensures this.up == up && data == map[] && expiry == map[] && version == map[]
    {
      this.up := up;
      data, expiry, version := map[], map[], map[];
    }

    /** `get(fullKey)`: null without a connection, otherwise the stored value or null. */
    method Get(fullKey: string) returns (r: Option<string>)
      ensures r.Some? <==> up && fullKey in data
      ensures r.Some? ==> r.value == data[fullKey]
    {
      if !up {
        return None;
      }
      r := if fullKey in data then Some(data[fullKey]) else None;
    }

    /** Runs a batch against the server, one command after another. */
    method Apply(cmds: seq<Command>) returns (replies: seq<Reply>)
      modifies this
      ensures up == old(up)
      ensures State() == Run(old(State()), cmds).0 && replies == Run(old(State()), cmds).1
    {
      replies := [];
      var i := 0;
      while i < |cmds|
        invariant 0 <= i <= |cmds| && up == old(up)
        invariant Run(old(State()), cmds).0 == Run(State(), cmds[i..]).0
        invariant Run(old(State()), cmds).1 == replies + Run(State(), cmds[i..]).1
      {
        assert cmds[i..][1..] == cmds[i + 1..];
        var step := Step(State(), cmds[i]);
        ghost var rest := Run(step.0, cmds[i + 1..]).1;
        assert replies + ([step.1] + rest) == (replies + [step.1]) + rest;
        data, expiry, version := step.0.data, step.0.expiry, step.0.version;
        replies := replies + [step.1];
        i := i + 1;
      }
    }

    /** `set(fullKey, value, expireSeconds)`: "FAIL" and no change without a connection;
        otherwise SET, then EXPIRE only when `expireSeconds > 0`. */
    method Set(fullKey: string, value: string, expireSeconds: int) returns (r: string)
      modifies this
      ensures up == old(up)
      ensures r == if up then "OK" else "FAIL"
      ensures State() == if up then Run(old(State()), SetCommands(fullKey, value, expireSeconds)).0 else old(State())
    {
      r := "FAIL";
      if up {
        var replies := Apply(SetCommands(fullKey, value, expireSeconds));
        r := "OK";
      }
    }

    /** A plain INCR by another client of the store. */
    method Incr(fullKey: string)
      modifies this
      ensures up == old(up)
      ensures State() == if up then Run(old(State()), [IncrCmd(fullKey)]).0 else old(State())
    {
      if up {
        var replies := Apply([IncrCmd(fullKey)]);
      }
    }

    /** Expiry of a key that carries a time-to-live; when it happens is not modelled, only that
        it removes the key. */
    method Evict(fullKey: string)
      requires fullKey in expiry
      modifies this
      ensures up == old(up)
      ensures data == old(data) - {fullKey} && expiry == old(expiry) - {fullKey}
      ensures version == Bump(old(version), fullKey)
    {
      data := data - {fullKey};
      expiry := expiry - {fullKey};
      version := Bump(version, fullKey);
    }
  }

  /** `RedisCache.RedisTransaction`: one connection, the keys it watches, and the commands
      queued since `multi()` (`None` while no transaction is open). */
  class Transaction {
    const store: Store
    var watched: map<string, nat>
    var queued: Option<seq<Command>>

    constructor (store: Store)
      ensures this.store == store && watched == map[] && queued == None
    {
      this.store := store;
      watched, queued := map[], None;
    }

    /** `watch(key)`: remember the key's current version. */
    method Watch(fullKey: string) returns (r: Option<string>)
      modifies this
      ensures watched == old(watched)[fullKey := store.Version(fullKey)] && queued == old(queued)
      ensures r == Some("OK")
    {
      watched := watched[fullKey := store.Version(fullKey)];
      r := Some("OK");
    }

    /** `multi()`: open a transaction with an empty queue. */
    method Multi()
      modifies this
      ensures queued == Some([]) && watched == old(watched)
    {
      queued := Some([]);
    }

    /** Transactional `set(key, value, expireSeconds)`: queue the SET, and an EXPIRE only when
        `expireSeconds > 0`; without an open transaction the call fails and queues nothing. */
    method Set(fullKey: string, value: string, expireSeconds: int) returns (queuedOk: bool)
      modifies this
      ensures watched == old(watched) && queuedOk == old(queued).Some?
      ensures queued == if old(queued).None? then None
                        else Some(old(queued).value + SetCommands(fullKey, value, expireSeconds))
    {
      queuedOk := queued.Some?;
      if queued.Some? {
        queued := Some(queued.value + SetCommands(fullKey, value, expireSeconds));
      }
    }

    /** Transactional `incr(key)`. */
    method Incr(fullKey: string) returns (queuedOk: bool)
      modifies this
      ensures watched == old(watched) && queuedOk == old(queued).Some?
      ensures queued == if old(queued).None? then None else Some(old(queued).value + [IncrCmd(fullKey)])
    {
      queuedOk := queued.Some?;
      if queued.Some? {
        queued := Some(queued.value + [IncrCmd(fullKey)]);
      }
    }

    /** `exec()`: with no open transaction, null. Otherwise the transaction ends and the watches
        are dropped; if a watched key changed since its watch, nothing is applied and the result
        is null (the abort marker); else the queue is applied atomically and its replies returned. */
    method Exec() returns (r: Option<seq<Reply>>)
      modifies this, store
      ensures old(queued).None? ==> r == None && store.State() == old(store.State()) && watched == old(watched)
      ensures old(queued).Some? ==> queued == None && watched == map[]
      ensures old(queued).Some? && !WatchHolds(old(watched), old(store.version)) ==>
                r == None && store.State() == old(store.State())
      ensures old(queued).Some? && WatchHolds(old(watched), old(store.version)) ==>
                r == Some(Run(old(store.State()), old(queued).value).1)
                && store.State() == Run(old(store.State()), old(queued).value).0
      ensures store.up == old(store.up) && queued == None
    {
      if queued.None? {
        return None;
      }
      var cmds := queued.value;
      if WatchHolds(watched, store.version) {
        var replies := store.Apply(cmds);
        r := Some(replies);
      } else {
        r := None;
      }
      watched, queued := map[], None;
    }
  }
}
