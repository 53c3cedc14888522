/** The content-addressed artifact cache with eviction of the least recently used entries. */
module ArtifactCache {
  import opened Core

  type Bytes = seq<int>

  /** lastAccess is a monotonic instant. */
  datatype Entry = Entry(size: nat, lastAccess: nat)

  type Entries = map<string, Entry>

  ghost function TotalSize(entries: Entries): nat {
    if entries == map[] then 0
    else
      var k :| k in entries;
      entries[k].size + TotalSize(entries - {k})
  }

  /** The sum does not depend on the order in which the entries are taken. */
  lemma {:induction false} TotalSizeWithout(entries: Entries, k: string)
    requires k in entries
    ensures TotalSize(entries) == entries[k].size + TotalSize(entries - {k})
    decreases |entries|
  {
    var j :| j in entries && TotalSize(entries) == entries[j].size + TotalSize(entries - {j});
    if j != k {
      TotalSizeWithout(entries - {j}, k);
      TotalSizeWithout(entries - {k}, j);
      assert entries - {j} - {k} == entries - {k} - {j};
    }
  }

  lemma TotalSizeUpdate(entries: Entries, k: string, e: Entry)
    ensures TotalSize(entries[k := e]) == TotalSize(entries - {k}) + e.size
    ensures k !in entries ==> TotalSize(entries[k := e]) == TotalSize(entries) + e.size
    ensures k in entries && entries[k].size == e.size ==> TotalSize(entries[k := e]) == TotalSize(entries)
  {
    TotalSizeWithout(entries[k := e], k);
    assert entries[k := e] - {k} == entries - {k};
    if k in entries {
      TotalSizeWithout(entries, k);
    } else {
      assert entries - {k} == entries;
    }
  }

  /** k is a least recently used entry. */
  ghost predicate Oldest(entries: Entries, k: string) {
    k in entries && forall j :: j in entries ==> entries[k].lastAccess <= entries[j].lastAccess
  }

  lemma {:induction false} SomeOldest(entries: Entries) returns (k: string)
    requires entries != map[]
    ensures Oldest(entries, k)
    decreases |entries|
  {
    var j :| j in entries;
    k := j;
    var rest := entries - {j};
    if rest != map[] {
      var m := SomeOldest(rest);
      k := if entries[m].lastAccess < entries[j].lastAccess then m else j;
    }
    forall i | i in entries
      ensures entries[k].lastAccess <= entries[i].lastAccess
    {
      assert i == j || i in rest;
    }
  }

  /** No evicted entry was used after a survivor. */
  ghost predicate LeastRecent(entries: Entries, evicted: set<string>) {
    && evicted <= entries.Keys
    && forall e, s :: e in evicted && s in entries && s !in evicted ==> entries[e].lastAccess <= entries[s].lastAccess
  }

  /** Keeping the most recently used of the evicted entries would not have left room for size more bytes. */
  ghost predicate NoneUnneeded(entries: Entries, evicted: set<string>, size: nat, maxBytes: nat)
    requires evicted <= entries.Keys
  {
    evicted != {} ==>
      exists last {:trigger last in evicted} :: last in evicted
        && (forall e :: e in evicted ==> entries[e].lastAccess <= entries[last].lastAccess)
        && TotalSize(entries - evicted) + entries[last].size + size > maxBytes
  }

  lemma NoneEvicted(entries: Entries, size: nat, maxBytes: nat)
    ensures LeastRecent(entries, {}) && NoneUnneeded(entries, {}, size, maxBytes)
  {
  }

  lemma EvictOneMore(entries: Entries, evicted: set<string>, k: string, size: nat, maxBytes: nat)
    requires LeastRecent(entries, evicted) && Oldest(entries - evicted, k)
    requires TotalSize(entries - evicted) + size > maxBytes
    ensures evicted + {k} <= entries.Keys && LeastRecent(entries, evicted + {k})
    ensures NoneUnneeded(entries, evicted + {k}, size, maxBytes)
    ensures TotalSize(entries - (evicted + {k})) == TotalSize(entries - evicted) - entries[k].size
  {
    var rest := entries - evicted;
    assert rest - {k} == entries - (evicted + {k});
    TotalSizeWithout(rest, k);
    forall e, s | e in evicted + {k} && s in entries && s !in evicted + {k}
      ensures entries[e].lastAccess <= entries[s].lastAccess
    {
      assert s in rest;
    }
    assert k in evicted + {k};
  }

  /**
    others are the keys that lead to something else than a file of the root directory, such as the directory itself
    under the empty key, or to a file elsewhere, which has the data given. No one else touches any of it.
   */
  datatype Config = Config(hash: Bytes -> string, maxBytes: nat, others: map<string, Option<Bytes>>)

  datatype Answer = Miss | Hit(data: Bytes) | Unreadable

  /** The files, and what the cache knows about them. */
  datatype Contents = Contents(files: map<string, Bytes>, entries: Entries)

  /** What a key finds that leads elsewhere. */
  function Elsewhere(config: Config, key: string): Answer
    requires key in config.others
  {
    match config.others[key]
    case None => Unreadable
    case Some(data) => Hit(data)
  }

  /** The content of each file hashes to its name, and each file has an entry. */
  ghost predicate Addressed(config: Config, c: Contents) {
    c.entries.Keys == c.files.Keys && c.files.Keys !! config.others.Keys && forall k :: k in c.files ==>
        config.hash(c.files[k]) == k
  }

  /** A hit refreshes the entry; a miss first evicts what has to go, and writes the file. */
  ghost predicate Stores(config: Config, c: Contents, data: Bytes, now: nat, key: string, evicted: set<string>,
      c': Contents) {
    && key == config.hash(data) && evicted <= c.entries.Keys
    && LeastRecent(c.entries, evicted) && NoneUnneeded(c.entries, evicted, |data|, config.maxBytes)
    && (if key in config.others then evicted == {} && c' == c
        else if key in c.files then
          && evicted == {} && key in c.entries
          && c' == c.(entries := c.entries[key := Entry(c.entries[key].size, now)])
        else
          && c' == Contents((c.files - evicted)[key := data], (c.entries - evicted)[key := Entry(|data|, now)])
          && (TotalSize(c'.entries) <= config.maxBytes || c'.entries.Keys == {key}))
  }

  ghost predicate Retrieves(config: Config, c: Contents, key: string, now: nat, answer: Answer, c': Contents) {
    if key in config.others then
      answer == Elsewhere(config, key) && c' == c
    else if key in c.files then
      && answer == Hit(c.files[key]) && key in c.entries
      && c' == c.(entries := c.entries[key := Entry(c.entries[key].size, now)])
    else
      answer == Miss && c' == c
  }

  class Cache {
    const config: Config
    // The files of the root directory, by name.
    var files: map<string, Bytes>
    var entries: Entries
    var totalBytes: nat
    var hits: nat
    var misses: nat

    ghost predicate Valid()
      reads this
    {
      && entries.Keys == files.Keys && files.Keys !! config.others.Keys
      && (forall k :: k in entries ==> entries[k].size == |files[k]|)
      && totalBytes == TotalSize(entries)
    }

    ghost function View(): Contents
      reads this
    {
      Contents(files, entries)
    }

    /** Opens a cache over an existing directory and scans it in any order. */
    constructor (config: Config, root: map<string, Bytes>, clock: string -> nat)
      requires root.Keys !! config.others.Keys
      ensures Valid() && this.config == config && files == root && hits == 0 && misses == 0
      ensures forall k :: k in entries ==> entries[k].lastAccess == clock(k)
    {
      this.config, files := config, root;
      entries, totalBytes, hits, misses := map[], 0, 0, 0;
      new;
      var todo := files.Keys;
      while todo != {}
        modifies `entries, `totalBytes
        invariant todo <= files.Keys && entries.Keys == files.Keys - todo
        invariant forall k :: k in entries ==> entries[k] == Entry(|files[k]|, clock(k))
        invariant totalBytes == TotalSize(entries)
        decreases todo
      {
        var name := Any(todo);
        todo := todo - {name};
        var size := |files[name]|;
        TotalSizeUpdate(entries, name, Entry(size, clock(name)));
        entries := entries[name := Entry(size, clock(name))];
        totalBytes := totalBytes + size;
      }
    }

    method EvictLru() returns (ghost key: string)
      requires Valid() && entries != map[]
      modifies `files, `entries, `totalBytes
      ensures Valid() && Oldest(old(entries), key)
      ensures entries == old(entries) - {key} && files == old(files) - {key}
    {
      ghost var least := SomeOldest(entries);
      var oldest :| oldest in entries && forall j :: j in entries ==>
          entries[oldest].lastAccess <= entries[j].lastAccess;
      TotalSizeWithout(entries, oldest);
      if oldest in files {
        files := files - {oldest};
      }
      totalBytes := Monus(totalBytes, entries[oldest].size);
      entries := entries - {oldest};
      key := oldest;
    }

    /** Evicts entries while size more bytes do not fit and any entry is left. */
    method MakeRoom(size: nat) returns (ghost evicted: set<string>)
      requires Valid()
      modifies `files, `entries, `totalBytes
      ensures Valid() && (totalBytes + size <= config.maxBytes || entries == map[])
      ensures evicted <= old(entries).Keys
      ensures LeastRecent(old(entries), evicted) && NoneUnneeded(old(entries), evicted, size, config.maxBytes)
      ensures entries == old(entries) - evicted && files == old(files) - evicted
    {
      hide LeastRecent, NoneUnneeded, Oldest;
      evicted := {};
      NoneEvicted(entries, size, config.maxBytes);
      assert entries - {} == entries && files - {} == files;
      while totalBytes + size > config.maxBytes && entries != map[]
        modifies `files, `entries, `totalBytes
        invariant Valid() && evicted <= old(entries).Keys
        invariant entries == old(entries) - evicted && files == old(files) - evicted
        invariant LeastRecent(old(entries), evicted) && NoneUnneeded(old(entries), evicted, size, config.maxBytes)
        decreases entries.Keys
      {
        ghost var gone := EvictLru();
        EvictOneMore(old(entries), evicted, gone, size, config.maxBytes);
        assert old(entries) - (evicted + {gone}) == entries && old(files) - (evicted + {gone}) == files;
        evicted := evicted + {gone};
      }
    }

    /** Stores data under its hash; a miss first evicts what has to go. */
    method Store(data: Bytes, now: nat) returns (key: string, ghost evicted: set<string>)
      requires Valid()
      modifies `files, `entries, `totalBytes
      ensures Valid() && Stores(config, old(View()), data, now, key, evicted, View())
    {
      hide LeastRecent, NoneUnneeded, TotalSize;
      key, evicted := config.hash(data), {};
      if key in files || key in config.others {
        NoneEvicted(entries, |data|, config.maxBytes);
        if key in entries {
          TotalSizeUpdate(entries, key, Entry(entries[key].size, now));
          entries := entries[key := Entry(entries[key].size, now)];
        }
        return;
      }
      var size := |data|;
      evicted := MakeRoom(size);
      TotalSizeUpdate(entries, key, Entry(size, now));
      files := files[key := data];
      entries := entries[key := Entry(size, now)];
      totalBytes := totalBytes + size;
    }

    method Retrieve(key: string, now: nat) returns (answer: Answer)
      requires Valid()
      modifies `entries, `hits, `misses
      ensures Valid()
      ensures Retrieves(config, old(View()), key, now, answer, View())
      ensures hits == old(hits) + (if answer.Miss? then 0 else 1)
          && misses == old(misses) + (if answer.Miss? then 1 else 0)
    {
      if key !in files && key !in config.others {
        misses := misses + 1;
        return Miss;
      }
      hits := hits + 1;
      if key in entries {
        TotalSizeUpdate(entries, key, Entry(entries[key].size, now));
        entries := entries[key := Entry(entries[key].size, now)];
      }
      answer := if key in files then Hit(files[key]) else Elsewhere(config, key);
    }
  }

  // ----- sequences of stores and retrievals -----

  datatype Op =
    | Stored(data: Bytes, storedAt: nat, key: string, evicted: set<string>)
    | Retrieved(key: string, retrievedAt: nat, answer: Answer)

  ghost predicate Step(config: Config, c: Contents, op: Op, c': Contents) {
    match op
    case Stored(data, now, key, evicted) => Stores(config, c, data, now, key, evicted, c')
    case Retrieved(key, now, answer) => Retrieves(config, c, key, now, answer, c')
  }

  /** A run over a directory whose files are named by their contents. */
  ghost predicate Run(config: Config, states: seq<Contents>, ops: seq<Op>) {
    && |states| == |ops| + 1 && Addressed(config, states[0])
    && forall i {:trigger ops[i]} :: 0 <= i < |ops| ==> Step(config, states[i], ops[i], states[i + 1])
  }

  /** Every file stays named by its contents. */
  lemma {:induction false} RunIsAddressed(config: Config, states: seq<Contents>, ops: seq<Op>, i: nat)
    requires Run(config, states, ops) && i < |states|
    ensures Addressed(config, states[i])
  {
    hide LeastRecent, NoneUnneeded, TotalSize;
    if i > 0 {
      RunIsAddressed(config, states, ops, i - 1);
      assert Step(config, states[i - 1], ops[i - 1], states[i]);
    }
  }

  predicate StoresKey(op: Op, key: string) {
    op.Stored? && op.key == key
  }

  predicate Evicts(op: Op, key: string) {
    op.Stored? && key in op.evicted
  }

  /** Between i and j the key is evicted, and not stored again. */
  ghost predicate EvictedBetween(ops: seq<Op>, i: nat, j: nat, key: string)
    requires i < j <= |ops|
  {
    exists k :: i < k < j && Evicts(ops[k], key) && forall m :: k < m < j ==> !StoresKey(ops[m], key)
  }

  lemma FileStep(config: Config, c: Contents, op: Op, c': Contents, key: string)
    requires Step(config, c, op, c') && Addressed(config, c) && key !in config.others
    ensures key in c'.files <==> StoresKey(op, key) || (key in c.files && !Evicts(op, key))
    ensures !(StoresKey(op, key) && Evicts(op, key))
  {
    hide LeastRecent, NoneUnneeded, TotalSize;
  }

  lemma EvictedStep(ops: seq<Op>, i: nat, n: nat, key: string)
    requires i < n < |ops|
    ensures EvictedBetween(ops, i, n + 1, key) <==>
        Evicts(ops[n], key) || (EvictedBetween(ops, i, n, key) && !StoresKey(ops[n], key))
  {
    if EvictedBetween(ops, i, n, key) && !StoresKey(ops[n], key) {
      var k :| i < k < n && Evicts(ops[k], key) && forall m :: k < m < n ==> !StoresKey(ops[m], key);
      assert forall m :: k < m < n + 1 ==> !StoresKey(ops[m], key);
    }
    if EvictedBetween(ops, i, n + 1, key) {
      var k :| i < k < n + 1 && Evicts(ops[k], key) && forall m :: k < m < n + 1 ==> !StoresKey(ops[m], key);
      assert k == n || !StoresKey(ops[n], key);
    }
  }

  lemma {:induction false} FileStays(config: Config, states: seq<Contents>, ops: seq<Op>, i: nat, j: nat, key: string)
    requires Run(config, states, ops) && i < j <= |ops| && StoresKey(ops[i], key) && key !in config.others
    ensures key in states[j].files <==> !EvictedBetween(ops, i, j, key)
    decreases j
  {
    var n := j - 1;
    assert Step(config, states[n], ops[n], states[j]);
    RunIsAddressed(config, states, ops, n);
    FileStep(config, states[n], ops[n], states[j], key);
    hide Step, Addressed, StoresKey, Evicts;
    if i < n {
      FileStays(config, states, ops, i, n, key);
      EvictedStep(ops, i, n, key);
      hide EvictedBetween;
    }
  }

  /** No other contents with the hash of the data are there at the start or are stored. */
  ghost predicate NoCollision(config: Config, states: seq<Contents>, ops: seq<Op>, data: Bytes)
    requires |states| > 0
  {
    var files := states[0].files;
    && (forall k :: k in files && config.hash(files[k]) == config.hash(data) ==> files[k] == data)
    && (forall i {:trigger ops[i]} ::
          0 <= i < |ops| && ops[i].Stored? && config.hash(ops[i].data) == config.hash(data) ==> ops[i].data == data)
  }

  lemma {:induction false} FileIsData(config: Config, states: seq<Contents>, ops: seq<Op>, j: nat, data: Bytes)
    requires Run(config, states, ops) && j <= |ops| && NoCollision(config, states, ops, data)
    ensures config.hash(data) in states[j].files ==> states[j].files[config.hash(data)] == data
    decreases j
  {
    if j == 0 {
      assert Addressed(config, states[0]);
    } else {
      FileIsData(config, states, ops, j - 1, data);
      assert Step(config, states[j - 1], ops[j - 1], states[j]);
      hide LeastRecent, NoneUnneeded, TotalSize;
    }
  }

  /**
    After any stores and retrievals in between, what was stored is what is retrieved, unless other contents with the
    same hash were there or were stored; it is missed exactly when it was evicted and has not been stored again.
   */
  lemma StoredIsRetrieved(config: Config, states: seq<Contents>, ops: seq<Op>, i: nat, j: nat)
    requires Run(config, states, ops) && i < j < |ops|
    requires ops[i].Stored? && ops[j].Retrieved? && ops[j].key == ops[i].key
    requires NoCollision(config, states, ops, ops[i].data)
    ensures ops[j].answer ==
            if ops[i].key in config.others then Elsewhere(config, ops[i].key)
            else if EvictedBetween(ops, i, j, ops[i].key) then Miss
            else Hit(ops[i].data)
  {
    assert Step(config, states[i], ops[i], states[i + 1]);
    assert Step(config, states[j], ops[j], states[j + 1]);
    if ops[i].key !in config.others {
      FileStays(config, states, ops, i, j, ops[i].key);
    }
    FileIsData(config, states, ops, j, ops[i].data);
    RunIsAddressed(config, states, ops, j);
  }

  // ----- least recently used, by the history -----

  function At(op: Op): nat {
    match op
    case Stored(_, at, _, _) => at
    case Retrieved(_, at, _) => at
  }

  /** When key was last stored or retrieved before operation i, or its time at the start if it never was. */
  function LastUse(first: Entries, ops: seq<Op>, i: nat, key: string): nat
    requires i <= |ops|
  {
    if i == 0 then if key in first then first[key].lastAccess else 0
    else if ops[i - 1].key == key then At(ops[i - 1])
    else LastUse(first, ops, i - 1, key)
  }

  lemma UseStep(config: Config, c: Contents, op: Op, c': Contents, key: string)
    requires Step(config, c, op, c') && Addressed(config, c) && key in c'.entries
    ensures op.key == key ==> c'.entries[key].lastAccess == At(op)
    ensures op.key != key ==> key in c.entries && c'.entries[key] == c.entries[key]
  {
    hide LeastRecent, NoneUnneeded, TotalSize;
  }

  /** The access time of an entry is the time of the last operation on its key. */
  lemma {:induction false} AccessIsLastUse(config: Config, states: seq<Contents>, ops: seq<Op>, i: nat, key: string)
    requires Run(config, states, ops) && i < |states| && key in states[i].entries
    ensures states[i].entries[key].lastAccess == LastUse(states[0].entries, ops, i, key)
    decreases i
  {
    if i > 0 {
      assert Step(config, states[i - 1], ops[i - 1], states[i]);
      RunIsAddressed(config, states, ops, i - 1);
      UseStep(config, states[i - 1], ops[i - 1], states[i], key);
      if ops[i - 1].key != key {
        AccessIsLastUse(config, states, ops, i - 1, key);
      }
    }
  }

  /** Operation j evicts e and keeps s, which was there before it. */
  ghost predicate EvictsBefore(states: seq<Contents>, ops: seq<Op>, j: nat, e: string, s: string)
    requires j < |ops| && j < |states|
  {
    ops[j].Stored? && e in ops[j].evicted && s in states[j].entries && s !in ops[j].evicted
  }

  /** What a store evicts was last stored or retrieved no later than anything that it keeps. */
  lemma LeastRecentlyUsed(config: Config, states: seq<Contents>, ops: seq<Op>, j: nat, e: string, s: string)
    requires Run(config, states, ops) && j < |ops| && EvictsBefore(states, ops, j, e, s)
    ensures LastUse(states[0].entries, ops, j, e) <= LastUse(states[0].entries, ops, j, s)
  {
    assert Step(config, states[j], ops[j], states[j + 1]);
    AccessIsLastUse(config, states, ops, j, e);
    AccessIsLastUse(config, states, ops, j, s);
  }

  /** The clock moves on between operations, and has moved on since the entries at the start were used. */
  ghost predicate ClockAdvances(first: Entries, ops: seq<Op>) {
    && (forall k, m {:trigger ops[k], ops[m]} :: 0 <= k < m < |ops| ==> At(ops[k]) < At(ops[m]))
    && (forall key, k {:trigger first[key], ops[k]} :: key in first && 0 <= k < |ops| ==>
          first[key].lastAccess < At(ops[k]))
  }

  lemma {:induction false} LastUseBounds(first: Entries, ops: seq<Op>, i: nat, key: string)
    requires i <= |ops| && ClockAdvances(first, ops)
    ensures forall k :: 0 <= k < i && ops[k].key == key ==> At(ops[k]) <= LastUse(first, ops, i, key)
    ensures (exists m :: 0 <= m < i && ops[m].key == key && LastUse(first, ops, i, key) == At(ops[m]))
         || (forall m :: 0 <= m < i ==> ops[m].key != key)
    ensures (forall m :: 0 <= m < i ==> ops[m].key != key) ==>
              LastUse(first, ops, i, key) == if key in first then first[key].lastAccess else 0
    decreases i
  {
    if i > 0 {
      LastUseBounds(first, ops, i - 1, key);
      if ops[i - 1].key != key {
        if m :| 0 <= m < i - 1 && ops[m].key == key && LastUse(first, ops, i - 1, key) == At(ops[m]) {
          assert ops[m].key == key && LastUse(first, ops, i, key) == At(ops[m]);
        }
      }
    }
  }

  /** While the clock moves on, every use of what a store evicts was followed by a use of everything that it keeps. */
  lemma UsedAfterEvicted(config: Config, states: seq<Contents>, ops: seq<Op>, j: nat, e: string, s: string, k: nat)
    requires Run(config, states, ops) && j < |ops| && EvictsBefore(states, ops, j, e, s)
    requires ClockAdvances(states[0].entries, ops) && k < j && ops[k].key == e
    ensures exists m :: k < m < j && ops[m].key == s
  {
    hide Step, Addressed, LastUse;
    var first := states[0].entries;
    LeastRecentlyUsed(config, states, ops, j, e, s);
    LastUseBounds(first, ops, j, e);
    LastUseBounds(first, ops, j, s);
    assert At(ops[k]) <= LastUse(first, ops, j, s);
    if forall m :: 0 <= m < j ==> ops[m].key != s {
      NeverUsedIsThere(config, states, ops, j, s);
    } else {
      var m :| 0 <= m < j && ops[m].key == s && LastUse(first, ops, j, s) == At(ops[m]);
      assert m > k;
    }
  }

  lemma {:induction false} NeverUsedIsThere(config: Config, states: seq<Contents>, ops: seq<Op>, i: nat, key: string)
    requires Run(config, states, ops) && i < |states| && key in states[i].entries
    requires forall m :: 0 <= m < i ==> ops[m].key != key
    ensures key in states[0].entries
    decreases i
  {
    if i > 0 {
      assert Step(config, states[i - 1], ops[i - 1], states[i]);
      RunIsAddressed(config, states, ops, i - 1);
      UseStep(config, states[i - 1], ops[i - 1], states[i], key);
      NeverUsedIsThere(config, states, ops, i - 1, key);
    }
  }

  // ----- the limit, by the files -----

  ghost function FilesSize(files: map<string, Bytes>): nat {
    if files == map[] then 0
    else
      var k :| k in files;
      |files[k]| + FilesSize(files - {k})
  }

  /** Each entry has the size of its file. */
  ghost predicate SizesRight(c: Contents) {
    c.entries.Keys == c.files.Keys && forall k :: k in c.files ==> c.entries[k].size == |c.files[k]|
  }

  lemma {:induction false} TotalIsFilesSize(c: Contents)
    requires SizesRight(c)
    ensures TotalSize(c.entries) == FilesSize(c.files)
    decreases |c.files|
  {
    if c.files != map[] {
      var k :| k in c.files && FilesSize(c.files) == |c.files[k]| + FilesSize(c.files - {k});
      TotalSizeWithout(c.entries, k);
      TotalIsFilesSize(Contents(c.files - {k}, c.entries - {k}));
    } else {
      assert c.entries == map[];
    }
  }

  ghost predicate WithinLimit(config: Config, c: Contents) {
    FilesSize(c.files) <= config.maxBytes || |c.files| <= 1
  }

  lemma {:induction false} SizesStayRight(config: Config, states: seq<Contents>, ops: seq<Op>, i: nat)
    requires Run(config, states, ops) && i < |states| && SizesRight(states[0])
    ensures SizesRight(states[i])
    decreases i
  {
    if i > 0 {
      SizesStayRight(config, states, ops, i - 1);
      assert Step(config, states[i - 1], ops[i - 1], states[i]);
      hide LeastRecent, NoneUnneeded, TotalSize;
    }
  }

  /** A cache within its limit, or with a single file that exceeds it, stays so. */
  lemma {:induction false} LimitIsKept(config: Config, states: seq<Contents>, ops: seq<Op>, i: nat, j: nat)
    requires Run(config, states, ops) && i <= j < |states| && SizesRight(states[0]) && WithinLimit(config, states[i])
    ensures WithinLimit(config, states[j])
    decreases j
  {
    hide Step, Addressed, SizesRight, FilesSize;
    if i < j {
      LimitIsKept(config, states, ops, i, j - 1);
      LimitStep(config, states, ops, j - 1);
    }
  }

  /** A store that writes a file brings the cache within its limit. */
  lemma LimitStep(config: Config, states: seq<Contents>, ops: seq<Op>, i: nat)
    requires Run(config, states, ops) && i < |ops| && SizesRight(states[0])
    ensures states[i + 1].files == states[i].files || WithinLimit(config, states[i + 1])
  {
    assert Step(config, states[i], ops[i], states[i + 1]);
    SizesStayRight(config, states, ops, i + 1);
    TotalIsFilesSize(states[i + 1]);
    hide LeastRecent, NoneUnneeded, TotalSize, FilesSize;
    if states[i + 1].entries.Keys == {ops[i].key} {
      assert |{ops[i].key}| == 1 && states[i + 1].files.Keys == {ops[i].key};
    }
  }
}
