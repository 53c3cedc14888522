/** Cache keys: the bytes fed to the hash. Strings are their UTF-8 bytes, which Rust orders lexicographically. */
module CacheKey {
  import opened Core

  type Bytes = seq<int>
  type Env = map<Bytes, Bytes>

  const PIPE := 0x7C
  const EQUALS := 0x3D
  const SEMICOLON := 0x3B

  predicate LexLess(a: Bytes, b: Bytes) {
    if b == [] then false
    else if a == [] then true
    else a[0] < b[0] || (a[0] == b[0] && LexLess(a[1..], b[1..]))
  }

  lemma {:induction false} LexTotal(a: Bytes, b: Bytes)
    ensures LexLess(a, b) || a == b || LexLess(b, a)
    ensures !(LexLess(a, b) && LexLess(b, a)) && !LexLess(a, a)
    decreases |a|
  {
    if a != [] {
      LexTotal(a[1..], a[1..]);
      if b != [] {
        LexTotal(a[1..], b[1..]);
        assert a == [a[0]] + a[1..] && b == [b[0]] + b[1..];
      }
    }
  }

  lemma {:induction false} LexTransitive(a: Bytes, b: Bytes, c: Bytes)
    requires LexLess(a, b) && LexLess(b, c)
    ensures LexLess(a, c)
    decreases |a|
  {
    if a != [] && a[0] == b[0] && b[0] == c[0] {
      LexTransitive(a[1..], b[1..], c[1..]);
    }
  }

  ghost predicate IsFirst(keys: set<Bytes>, k: Bytes) {
    k in keys && forall j :: j in keys && j != k ==> LexLess(k, j)
  }

  lemma {:induction false} FirstExists(keys: set<Bytes>) returns (k: Bytes)
    requires keys != {}
    ensures IsFirst(keys, k)
    decreases keys
  {
    var j :| j in keys;
    k := j;
    var rest := keys - {j};
    if rest != {} {
      var m := FirstExists(rest);
      LexTotal(m, j);
      if LexLess(m, j) { k := m; }
      forall i | i in keys && i != k
        ensures LexLess(k, i)
      {
        if k == j && i != m { LexTransitive(j, m, i); }
      }
    } else {
      assert keys == {j};
    }
  }

  lemma FirstIsUnique(keys: set<Bytes>, k: Bytes, j: Bytes)
    requires IsFirst(keys, k) && IsFirst(keys, j)
    ensures k == j
  {
    LexTotal(k, j);
  }

  lemma SomeFirst(keys: set<Bytes>)
    requires keys != {}
    ensures exists k :: IsFirst(keys, k)
  {
    var k := FirstExists(keys);
  }

  ghost function First(keys: set<Bytes>): (k: Bytes)
    requires keys != {}
    ensures IsFirst(keys, k)
  {
    SomeFirst(keys);
    var k :| IsFirst(keys, k);
    k
  }

  function PairBytes(key: Bytes, value: Bytes): Bytes {
    key + [EQUALS] + value + [SEMICOLON]
  }

  /** The environment, keys in increasing order. */
  ghost function EnvBytes(env: Env): Bytes
    decreases |env|
  {
    if env == map[] then []
    else
      assert env.Keys != {};
      var k := First(env.Keys);
      PairBytes(k, env[k]) + EnvBytes(env - {k})
  }

  ghost function Encoding(repo: Bytes, goal: Bytes, toolchain: Bytes, env: Env): Bytes {
    repo + [PIPE] + (goal + [PIPE] + (toolchain + [PIPE] + EnvBytes(env)))
  }

  /** Inserting pairs one after the other; a later pair replaces an earlier one with the same key. */
  function Inserted(env: Env, vars: seq<(Bytes, Bytes)>): Env {
    if vars == [] then env
    else
      var front, last := vars[..|vars| - 1], vars[|vars| - 1];
      Inserted(env, front)[last.0 := last.1]
  }

  class CacheKeyBuilder {
    var repo: Bytes
    var goal: Bytes
    var env: Env
    var toolchain: Bytes

    constructor (repo: Bytes, goal: Bytes)
      ensures this.repo == repo && this.goal == goal && env == map[] && toolchain == []
    {
      this.repo, this.goal, env, toolchain := repo, goal, map[], [];
    }

    method WithEnv(vars: seq<(Bytes, Bytes)>)
      modifies `env
      ensures env == Inserted(old(env), vars)
    {
      for i := 0 to |vars|
        invariant env == Inserted(old(env), vars[..i])
      {
        assert vars[..i + 1][..i] == vars[..i];
        env := env[vars[i].0 := vars[i].1];
      }
      assert vars[..|vars|] == vars;
    }

    method WithToolchain(toolchain: Bytes)
      modifies `toolchain
      ensures this.toolchain == toolchain
    {
      this.toolchain := toolchain;
    }

    /** What the hash is computed from. */
    method Build(hash: Bytes -> string) returns (key: string)
      ensures key == hash(Encoding(repo, goal, toolchain, env))
    {
      hide LexLess, Encoding, EnvBytes;
      Flattened(repo, goal, toolchain, env);
      var fed := repo;
      fed := fed + [PIPE];
      fed := fed + goal;
      fed := fed + [PIPE];
      fed := fed + toolchain;
      fed := fed + [PIPE];
      ghost var head := fed;
      var left := env;
      while left != map[]
        invariant left.Keys <= env.Keys && forall k :: k in left ==> left[k] == env[k]
        invariant fed + EnvBytes(left) == head + EnvBytes(env)
        decreases |left|
      {
        SomeKeyFirst(left);
        var k :| k in left.Keys && forall j :: j in left.Keys && j != k ==> LexLess(k, j);
        NextPair(fed, left, k);
        fed := fed + k;
        fed := fed + [EQUALS];
        fed := fed + left[k];
        fed := fed + [SEMICOLON];
        left := left - {k};
      }
      assert fed + [] == fed;
      key := hash(fed);
    }
  }

  lemma Flattened(repo: Bytes, goal: Bytes, toolchain: Bytes, env: Env)
    ensures Encoding(repo, goal, toolchain, env)
         == repo + [PIPE] + goal + [PIPE] + toolchain + [PIPE] + EnvBytes(env)
    ensures EnvBytes(map[]) == []
  {
    Flatten(repo, goal, toolchain, EnvBytes(env));
  }

  lemma SomeKeyFirst(env: Env)
    requires env != map[]
    ensures exists k :: k in env.Keys && forall j :: j in env.Keys && j != k ==> LexLess(k, j)
  {
    assert env.Keys != {};
    var k := FirstExists(env.Keys);
  }

  lemma Regroup(fed: Bytes, k: Bytes, v: Bytes, rest: Bytes)
    ensures fed + (PairBytes(k, v) + rest) == fed + k + [EQUALS] + v + [SEMICOLON] + rest
  {
  }

  lemma NextPair(fed: Bytes, env: Env, k: Bytes)
    requires k in env.Keys && forall j :: j in env.Keys && j != k ==> LexLess(k, j)
    ensures fed + EnvBytes(env) == fed + k + [EQUALS] + env[k] + [SEMICOLON] + EnvBytes(env - {k})
  {
    hide PairBytes;
    FirstIsUnique(env.Keys, k, First(env.Keys));
    Regroup(fed, k, env[k], EnvBytes(env - {k}));
  }

  // ----- the bytes as text -----

  function Text(s: string): Bytes {
    seq(|s|, i requires 0 <= i < |s| => s[i] as int)
  }

  /** The variables one after the other, in the order of the keys. */
  ghost function Listed(env: Env, keys: seq<Bytes>): Bytes
    requires forall k :: k in keys ==> k in env
  {
    if keys == [] then []
    else keys[0] + Text("=") + env[keys[0]] + Text(";") + Listed(env, keys[1..])
  }

  /** The texts agree before n, and there the first is less or at its end. */
  ghost predicate LessAt(a: Bytes, b: Bytes, n: nat) {
    && n <= |a| && n <= |b| && a[..n] == b[..n]
    && (if n < |a| && n < |b| then a[n] < b[n] else n == |a| < |b|)
  }

  /** Byte by byte, up to the first difference or the end of the shorter one. */
  ghost predicate ComesBefore(a: Bytes, b: Bytes) {
    exists n: nat :: LessAt(a, b, n)
  }

  lemma LessAfterFirst(a: Bytes, b: Bytes, n: nat)
    requires a != [] && b != [] && n > 0
    ensures LessAt(a, b, n) <==> a[0] == b[0] && LessAt(a[1..], b[1..], n - 1)
  {
    if n <= |a| && n <= |b| {
      assert a[..n] == [a[0]] + a[1..][..n - 1] && b[..n] == [b[0]] + b[1..][..n - 1];
    }
  }

  lemma {:induction false} LexLessIsBefore(a: Bytes, b: Bytes)
    ensures LexLess(a, b) <==> ComesBefore(a, b)
    decreases |a|
  {
    if LexLess(a, b) {
      if a == [] || a[0] < b[0] {
        assert LessAt(a, b, 0);
      } else {
        LexLessIsBefore(a[1..], b[1..]);
        var n: nat :| LessAt(a[1..], b[1..], n);
        LessAfterFirst(a, b, n + 1);
      }
    }
    if ComesBefore(a, b) && a != [] && b != [] {
      var n: nat :| LessAt(a, b, n);
      if n > 0 {
        LessAfterFirst(a, b, n);
        LexLessIsBefore(a[1..], b[1..]);
      }
    }
  }

  ghost predicate Ascending(keys: seq<Bytes>) {
    forall i, j :: 0 <= i < j < |keys| ==> ComesBefore(keys[i], keys[j])
  }

  lemma {:induction false} EnvIsListed(env: Env, keys: seq<Bytes>)
    requires Ascending(keys) && Elements(keys) == env.Keys
    ensures forall k :: k in keys ==> k in env
    ensures EnvBytes(env) == Listed(env, keys)
    decreases |keys|
  {
    forall k | k in keys
      ensures k in env
    {
      assert k in Elements(keys);
    }
    if keys != [] {
      var k, rest := keys[0], keys[1..];
      assert k in Elements(keys);
      forall j | j in env && j != k
        ensures LexLess(k, j)
      {
        var i :| 0 <= i < |keys| && keys[i] == j;
        LexLessIsBefore(k, j);
      }
      FirstIsUnique(env.Keys, k, First(env.Keys));
      forall j
        ensures j in Elements(rest) <==> j in env && j != k
      {
        RestWithoutFirst(keys, j);
        assert j in Elements(keys) <==> j in env;
      }
      assert Elements(rest) == (env - {k}).Keys;
      EnvIsListed(env - {k}, rest);
      ListedElsewhere(env, env - {k}, rest);
      assert Text("=") == [EQUALS] && Text(";") == [SEMICOLON];
    } else {
      assert env.Keys == {};
    }
  }

  lemma RestWithoutFirst(keys: seq<Bytes>, j: Bytes)
    requires keys != [] && Ascending(keys)
    ensures j in keys[1..] <==> j in keys && j != keys[0]
  {
    if j in keys[1..] {
      var i :| 0 <= i < |keys| - 1 && keys[1..][i] == j;
      assert ComesBefore(keys[0], keys[i + 1]);
      LexLessIsBefore(keys[0], j);
      LexTotal(j, j);
    }
  }

  lemma {:induction false} ListedElsewhere(env: Env, env': Env, keys: seq<Bytes>)
    requires forall k :: k in keys ==> k in env && k in env' && env[k] == env'[k]
    ensures Listed(env, keys) == Listed(env', keys)
  {
    if keys != [] {
      ListedElsewhere(env, env', keys[1..]);
    }
  }

  /** With the variables listed in ascending order of their keys, the bytes are this text. */
  lemma EncodingAsText(repo: Bytes, goal: Bytes, toolchain: Bytes, env: Env, keys: seq<Bytes>)
    requires Ascending(keys) && Elements(keys) == env.Keys
    ensures forall k :: k in keys ==> k in env
    ensures Encoding(repo, goal, toolchain, env) ==
            repo + Text("|") + goal + Text("|") + toolchain + Text("|") + Listed(env, keys)
  {
    EnvIsListed(env, keys);
    assert Text("|") == [PIPE];
    Flattened(repo, goal, toolchain, env);
  }

  // ----- the order of insertion -----

  ghost predicate DistinctKeys(vars: seq<(Bytes, Bytes)>) {
    forall i, j :: 0 <= i < j < |vars| ==> vars[i].0 != vars[j].0
  }

  lemma LastKeyIsNew(vars: seq<(Bytes, Bytes)>)
    requires DistinctKeys(vars) && vars != []
    ensures DistinctKeys(vars[..|vars| - 1])
    ensures forall p :: p in vars[..|vars| - 1] ==> p.0 != vars[|vars| - 1].0
  {
    var front := vars[..|vars| - 1];
    forall p | p in front
      ensures p.0 != vars[|vars| - 1].0
    {
      var i :| 0 <= i < |front| && front[i] == p;
      assert vars[i] == p;
    }
  }

  lemma {:induction false} InsertedContents(env: Env, vars: seq<(Bytes, Bytes)>, k: Bytes)
    requires DistinctKeys(vars)
    ensures k in Inserted(env, vars) <==> k in env || exists p :: p in vars && p.0 == k
    ensures forall p :: p in vars && p.0 == k ==> k in Inserted(env, vars) && Inserted(env, vars)[k] == p.1
    ensures (forall p :: p in vars ==> p.0 != k) && k in env ==> Inserted(env, vars)[k] == env[k]
  {
    if vars != [] {
      var front, last := vars[..|vars| - 1], vars[|vars| - 1];
      assert vars == front + [last];
      LastKeyIsNew(vars);
      InsertedContents(env, front, k);
      assert forall p :: p in vars <==> p == last || p in front;
    }
  }

  ghost function LastValue(vars: seq<(Bytes, Bytes)>, k: Bytes): Option<Bytes> {
    if vars == [] then None
    else
      var front, last := vars[..|vars| - 1], vars[|vars| - 1];
      if last.0 == k then Some(last.1) else LastValue(front, k)
  }

  /** Of several pairs with one key the last counts; a key without a pair keeps its value. */
  lemma {:induction false} LastPairCounts(env: Env, vars: seq<(Bytes, Bytes)>, k: Bytes)
    ensures k in Inserted(env, vars) <==> LastValue(vars, k).Some? || k in env
    ensures k in Inserted(env, vars) ==>
              Inserted(env, vars)[k] == if LastValue(vars, k).Some? then LastValue(vars, k).value else env[k]
    decreases |vars|
  {
    if vars != [] {
      LastPairCounts(env, vars[..|vars| - 1], k);
    }
  }

  /** Pairs with distinct keys lead to the same bytes in whatever order they are added. */
  lemma OrderDoesNotMatter(repo: Bytes, goal: Bytes, toolchain: Bytes, env: Env, vars: seq<(Bytes, Bytes)>,
      vars': seq<(Bytes, Bytes)>)
    requires DistinctKeys(vars) && multiset(vars) == multiset(vars')
    ensures Inserted(env, vars) == Inserted(env, vars')
    ensures Encoding(repo, goal, toolchain, Inserted(env, vars)) ==
        Encoding(repo, goal, toolchain, Inserted(env, vars'))
  {
    PermutedKeys(vars, vars');
    assert forall p :: p in vars <==> p in multiset(vars);
    assert forall p :: p in vars' <==> p in multiset(vars');
    forall k
      ensures k in Inserted(env, vars) <==> k in Inserted(env, vars')
      ensures k in Inserted(env, vars) ==> Inserted(env, vars)[k] == Inserted(env, vars')[k]
    {
      InsertedContents(env, vars, k);
      InsertedContents(env, vars', k);
    }
  }

  lemma OccursOnce(vars: seq<(Bytes, Bytes)>, p: (Bytes, Bytes))
    requires DistinctKeys(vars)
    ensures multiset(vars)[p] <= 1
  {
    if p in vars {
      var i :| 0 <= i < |vars| && vars[i] == p;
      assert vars == vars[..i] + [p] + vars[i + 1..];
      assert p !in vars[..i] && p !in vars[i + 1..];
    }
  }

  lemma PermutedKeys(vars: seq<(Bytes, Bytes)>, vars': seq<(Bytes, Bytes)>)
    requires DistinctKeys(vars) && multiset(vars) == multiset(vars')
    ensures DistinctKeys(vars')
  {
    forall i, j | 0 <= i < j < |vars'|
      ensures vars'[i].0 != vars'[j].0
    {
      var p, q := vars'[i], vars'[j];
      OccursOnce(vars, p);
      assert p in multiset(vars) && q in multiset(vars);
      assert p != q by {
        assert vars' == vars'[..i] + [p] + vars'[i + 1..j] + [q] + vars'[j + 1..];
      }
      var a :| 0 <= a < |vars| && vars[a] == p;
      var b :| 0 <= b < |vars| && vars[b] == q;
      assert a < b || b < a;
    }
  }

  // ----- the encoding is unambiguous -----

  lemma NoLongerBeforeMark(a: Bytes, b: Bytes, c: int, x: Bytes, y: Bytes)
    requires c !in b && a + [c] + x == b + [c] + y
    ensures |b| <= |a|
  {
    var s := a + [c] + x;
    assert s[|a|] == c;
    assert forall i :: 0 <= i < |b| ==> s[i] == b[i];
  }

  /** What stands before the first mark, and what stands after it, can be read back. */
  lemma SplitIsUnique(a: Bytes, b: Bytes, c: int, x: Bytes, y: Bytes)
    requires c !in a && c !in b && a + [c] + x == b + [c] + y
    ensures a == b && x == y
  {
    NoLongerBeforeMark(a, b, c, x, y);
    NoLongerBeforeMark(b, a, c, y, x);
    var s := a + [c] + x;
    assert a == s[..|a|] && b == s[..|a|];
    assert x == s[|a| + 1..] && y == s[|a| + 1..];
  }

  ghost predicate CleanEnv(env: Env) {
    forall k :: k in env ==> EQUALS !in k && SEMICOLON !in env[k]
  }

  // ----- reading an environment back -----

  function IndexOf(s: Bytes, c: int): (i: nat)
    ensures i <= |s| && c !in s[..i] && (i < |s| ==> s[i] == c)
  {
    if s == [] || s[0] == c then 0
    else
      var i := IndexOf(s[1..], c) + 1;
      assert s[..i] == [s[0]] + s[1..][..i - 1];
      i
  }

  predicate Follows(prev: Option<Bytes>, k: Bytes) {
    prev.None? || LexLess(prev.value, k)
  }

  /** Splits at the first '=' and the first ';' after it; keys have to increase. */
  function ParsePairs(s: Bytes, prev: Option<Bytes>): Option<Env>
    decreases |s|
  {
    if s == [] then Some(map[])
    else
      var i := IndexOf(s, EQUALS);
      if i == |s| then None
      else
        var k, rest := s[..i], s[i + 1..];
        var j := IndexOf(rest, SEMICOLON);
        if j == |rest| || !Follows(prev, k) then None
        else
          match ParsePairs(rest[j + 1..], Some(k))
          case None => None
          case Some(env) => Some(env[k := rest[..j]])
  }

  function ParseEnv(s: Bytes): Option<Env> {
    ParsePairs(s, None)
  }

  ghost predicate AllFollow(prev: Option<Bytes>, env: Env) {
    forall k :: k in env ==> Follows(prev, k)
  }

  lemma FirstIsThere(keys: set<Bytes>)
    requires keys != {}
    ensures First(keys) in keys && forall j :: j in keys && j != First(keys) ==> LexLess(First(keys), j)
  {
    assert IsFirst(keys, First(keys));
  }

  lemma FoundAt(a: Bytes, c: int, x: Bytes)
    requires c !in a
    ensures IndexOf(a + [c] + x, c) == |a|
  {
    var s := a + [c] + x;
    var i := IndexOf(s, c);
    assert s[|a|] == c;
    assert forall n :: 0 <= n < |a| ==> s[n] == a[n];
    forall n | 0 <= n < i
      ensures s[n] != c
    {
      assert s[n] == s[..i][n];
    }
  }

  lemma ParseStep(k: Bytes, v: Bytes, rest: Bytes, prev: Option<Bytes>)
    requires EQUALS !in k && SEMICOLON !in v && Follows(prev, k)
    ensures ParsePairs(PairBytes(k, v) + rest, prev) ==
            match ParsePairs(rest, Some(k)) case None => None case Some(env) => Some(env[k := v])
  {
    var s, t := PairBytes(k, v) + rest, v + [SEMICOLON] + rest;
    PairThenRest(k, v, rest);
    FoundAt(k, EQUALS, t);
    FoundAt(v, SEMICOLON, rest);
    assert s[..|k|] == k && s[|k| + 1..] == t && t[..|v|] == v && t[|v| + 1..] == rest;
  }

  /** A clean environment reads back from its bytes. */
  lemma {:induction false} ParseCompletes(env: Env, prev: Option<Bytes>)
    requires CleanEnv(env) && AllFollow(prev, env)
    ensures ParsePairs(EnvBytes(env), prev) == Some(env)
    decreases |env|
  {
    hide ParsePairs, PairBytes, LexLess, IsFirst;
    if env == map[] {
      assert ParsePairs([], prev) == Some(map[]) by { ParseNothing(prev); }
    } else {
      assert env.Keys != {};
      FirstIsThere(env.Keys);
      var k := First(env.Keys);
      ParseCompletes(env - {k}, Some(k));
      ParseStep(k, env[k], EnvBytes(env - {k}), prev);
      assert (env - {k})[k := env[k]] == env;
    }
  }

  lemma ParseNothing(prev: Option<Bytes>)
    ensures ParsePairs([], prev) == Some(map[])
  {
  }

  lemma PairThenRest(k: Bytes, v: Bytes, rest: Bytes)
    ensures PairBytes(k, v) + rest == k + [EQUALS] + (v + [SEMICOLON] + rest)
  {
  }

  lemma CutAt(s: Bytes, i: nat)
    requires i < |s|
    ensures s == s[..i] + [s[i]] + s[i + 1..]
  {
  }

  lemma FirstParsed(s: Bytes, prev: Option<Bytes>) returns (k: Bytes, v: Bytes, rest: Bytes)
    requires s != [] && ParsePairs(s, prev).Some?
    ensures EQUALS !in k && SEMICOLON !in v && Follows(prev, k) && s == PairBytes(k, v) + rest
    ensures ParsePairs(rest, Some(k)).Some? && ParsePairs(s, prev).value == ParsePairs(rest, Some(k)).value[k := v]
  {
    hide PairBytes, LexLess, Follows;
    var i := IndexOf(s, EQUALS);
    var t := s[i + 1..];
    var j := IndexOf(t, SEMICOLON);
    k, v, rest := s[..i], t[..j], t[j + 1..];
    CutAt(s, i);
    CutAt(t, j);
    PairThenRest(k, v, rest);
  }

  /** What parses is the bytes of a clean environment. */
  lemma {:induction false} ParseIsSound(s: Bytes, prev: Option<Bytes>)
    requires ParsePairs(s, prev).Some?
    ensures var env := ParsePairs(s, prev).value;
            CleanEnv(env) && AllFollow(prev, env) && EnvBytes(env) == s
    decreases |s|
  {
    if s == [] {
      ParseNothing(prev);
    } else {
      var k, v, rest := FirstParsed(s, prev);
      assert |rest| < |s|;
      ParseIsSound(rest, Some(k));
      hide ParsePairs, PairBytes, LexLess;
      var env := ParsePairs(rest, Some(k)).value;
      AddFirst(env, k, v);
      FollowTransitive(prev, k, env, v);
    }
  }

  lemma AddFirst(env: Env, k: Bytes, v: Bytes)
    requires forall j :: j in env ==> LexLess(k, j)
    ensures k !in env && EnvBytes(env[k := v]) == PairBytes(k, v) + EnvBytes(env)
  {
    LexTotal(k, k);
    var more := env[k := v];
    assert more.Keys == env.Keys + {k} && more - {k} == env;
    assert IsFirst(more.Keys, k);
    FirstIsUnique(more.Keys, k, First(more.Keys));
  }

  lemma FollowTransitive(prev: Option<Bytes>, k: Bytes, env: Env, v: Bytes)
    requires Follows(prev, k) && AllFollow(Some(k), env)
    ensures AllFollow(prev, env[k := v])
  {
    forall j | j in env
      ensures Follows(prev, j)
    {
      if prev.Some? { LexTransitive(prev.value, k, j); }
    }
  }

  /** Parsing undoes writing: for clean environments the bytes determine the environment, and nothing else parses. */
  lemma EnvRoundTrip(s: Bytes, env: Env)
    requires CleanEnv(env)
    ensures ParseEnv(s) == Some(env) <==> EnvBytes(env) == s
  {
    ParseCompletes(env, None);
    if ParseEnv(s) == Some(env) {
      ParseIsSound(s, None);
    }
  }

  lemma EnvIsDetermined(env: Env, env': Env)
    requires CleanEnv(env) && CleanEnv(env') && EnvBytes(env) == EnvBytes(env')
    ensures env == env'
  {
    EnvRoundTrip(EnvBytes(env), env);
    EnvRoundTrip(EnvBytes(env), env');
  }

  /** Without '|' in the first three parts, '=' in the keys and ';' in the values, the bytes determine every part. */
  lemma EncodingIsInjective(repo: Bytes, goal: Bytes, toolchain: Bytes, env: Env, repo': Bytes, goal': Bytes,
      toolchain': Bytes, env': Env)
    requires PIPE !in repo && PIPE !in goal && PIPE !in toolchain && CleanEnv(env)
    requires PIPE !in repo' && PIPE !in goal' && PIPE !in toolchain' && CleanEnv(env')
    requires Encoding(repo, goal, toolchain, env) == Encoding(repo', goal', toolchain', env')
    ensures repo == repo' && goal == goal' && toolchain == toolchain' && env == env'
  {
    var t, t' := toolchain + [PIPE] + EnvBytes(env), toolchain' + [PIPE] + EnvBytes(env');
    SplitIsUnique(repo, repo', PIPE, goal + [PIPE] + t, goal' + [PIPE] + t');
    SplitIsUnique(goal, goal', PIPE, t, t');
    SplitIsUnique(toolchain, toolchain', PIPE, EnvBytes(env), EnvBytes(env'));
    EnvIsDetermined(env, env');
  }

  // ----- which inputs share their bytes with others -----

  datatype Parts = Parts(repo: Bytes, goal: Bytes, toolchain: Bytes, env: Env)

  ghost function BytesOf(p: Parts): Bytes {
    Encoding(p.repo, p.goal, p.toolchain, p.env)
  }

  function Marks(s: Bytes): nat {
    if s == [] then 0 else (if s[0] == PIPE then 1 else 0) + Marks(s[1..])
  }

  lemma {:induction false} MarksConcat(a: Bytes, b: Bytes)
    ensures Marks(a + b) == Marks(a) + Marks(b)
  {
    if a == [] {
      assert a + b == b;
    } else {
      MarksConcat(a[1..], b);
      assert (a + b)[1..] == a[1..] + b;
    }
  }

  lemma {:induction false} NoMarks(s: Bytes)
    ensures Marks(s) == 0 <==> PIPE !in s
  {
    if s != [] {
      NoMarks(s[1..]);
    }
  }

  function Head(p: Parts): Bytes {
    p.repo + [PIPE] + p.goal + [PIPE] + p.toolchain + [PIPE]
  }

  lemma MarkEnds(a: Bytes)
    ensures Marks(a + [PIPE]) == Marks(a) + 1
  {
    MarksConcat(a, [PIPE]);
    OneMark();
  }

  lemma HeadMarks(p: Parts)
    ensures Marks(Head(p)) == Marks(p.repo) + Marks(p.goal) + Marks(p.toolchain) + 3
    ensures |Head(p)| > 0 && Head(p)[|Head(p)| - 1] == PIPE
  {
    hide Marks;
    var a := p.repo + [PIPE];
    var b := a + p.goal + [PIPE];
    MarkEnds(p.repo);
    MarksConcat(a, p.goal);
    MarkEnds(a + p.goal);
    MarksConcat(b, p.toolchain);
    MarkEnds(b + p.toolchain);
  }

  lemma HeadThenEnv(p: Parts)
    ensures BytesOf(p) == Head(p) + EnvBytes(p.env)
    ensures Marks(Head(p)) == Marks(p.repo) + Marks(p.goal) + Marks(p.toolchain) + 3
    ensures |Head(p)| > 0 && Head(p)[|Head(p)| - 1] == PIPE
  {
    HeadMarks(p);
    hide Marks, EnvBytes;
    Flatten(p.repo, p.goal, p.toolchain, EnvBytes(p.env));
  }

  lemma Flatten(a: Bytes, b: Bytes, c: Bytes, e: Bytes)
    ensures a + [PIPE] + (b + [PIPE] + (c + [PIPE] + e)) == a + [PIPE] + b + [PIPE] + c + [PIPE] + e
  {
  }

  lemma OneMark()
    ensures Marks([PIPE]) == 1
  {
  }

  predicate HasPipe(p: Parts) {
    PIPE in p.repo || PIPE in p.goal || PIPE in p.toolchain
  }

  /** Some '|' among the variables is followed by bytes that parse as variables themselves. */
  ghost predicate HidesEnv(env: Env) {
    exists i :: 0 <= i < |EnvBytes(env)| && EnvBytes(env)[i] == PIPE && ParseEnv(EnvBytes(env)[i + 1..]).Some?
  }

  /** Other parts lead to the same bytes. */
  ghost predicate Confusable(p: Parts) {
    exists q :: q != p && BytesOf(q) == BytesOf(p)
  }

  /** Other parts lead to the same bytes, and their keys have no '=' and their values no ';'. */
  ghost predicate CleanlyConfusable(p: Parts) {
    exists q :: q != p && CleanEnv(q.env) && BytesOf(q) == BytesOf(p)
  }

  lemma SameThree(a: Bytes, b: Bytes, c: Bytes, a': Bytes, b': Bytes, c': Bytes)
    requires PIPE !in a && PIPE !in a' && PIPE !in b && PIPE !in b' && PIPE !in c && PIPE !in c'
    requires a + [PIPE] + (b + [PIPE] + (c + [PIPE] + [])) == a' + [PIPE] + (b' + [PIPE] + (c' + [PIPE] + []))
    ensures a == a' && b == b' && c == c'
  {
    SplitIsUnique(a, a', PIPE, b + [PIPE] + (c + [PIPE] + []), b' + [PIPE] + (c' + [PIPE] + []));
    SplitIsUnique(b, b', PIPE, c + [PIPE] + [], c' + [PIPE] + []);
    SplitIsUnique(c, c', PIPE, [], []);
  }

  lemma SameHead(p: Parts, q: Parts)
    requires !HasPipe(p) && Head(p) == Head(q)
    ensures p.repo == q.repo && p.goal == q.goal && p.toolchain == q.toolchain
  {
    HeadThenEnv(p);
    HeadThenEnv(q);
    NoMarks(p.repo);
    NoMarks(p.goal);
    NoMarks(p.toolchain);
    NoMarks(q.repo);
    NoMarks(q.goal);
    NoMarks(q.toolchain);
    hide Marks;
    Flatten(p.repo, p.goal, p.toolchain, []);
    Flatten(q.repo, q.goal, q.toolchain, []);
    SameThree(p.repo, p.goal, p.toolchain, q.repo, q.goal, q.toolchain);
  }

  lemma PartsFrom(repo: Bytes, goal: Bytes, toolchain: Bytes, env: Env, env': Env, hidden: Bytes)
    requires EnvBytes(env) == hidden + [PIPE] + EnvBytes(env')
    ensures Encoding(repo, goal, toolchain, env) == Encoding(repo, goal + [PIPE] + toolchain, hidden, env')
  {
    var e := EnvBytes(env');
    assert repo + [PIPE] + (goal + [PIPE] + (toolchain + [PIPE] + (hidden + [PIPE] + e)))
        == repo + [PIPE] + (goal + [PIPE] + toolchain + [PIPE] + (hidden + [PIPE] + e));
  }

  /** A text cut at a '|' gives the same bytes wherever it is cut, between any two neighbouring parts. */
  lemma PipesAreAmbiguous(a: Bytes, b: Bytes, c: Bytes, d: Bytes, env: Env)
    ensures Encoding(a + [PIPE] + b, c, d, env) == Encoding(a, b + [PIPE] + c, d, env)
    ensures Encoding(a, b + [PIPE] + c, d, env) == Encoding(a, b, c + [PIPE] + d, env)
  {
    var e := EnvBytes(env);
    var t := d + [PIPE] + e;
    assert a + [PIPE] + b + [PIPE] + (c + [PIPE] + t) == a + [PIPE] + (b + [PIPE] + c + [PIPE] + t);
    assert b + [PIPE] + c + [PIPE] + (d + [PIPE] + e) == b + [PIPE] + (c + [PIPE] + d + [PIPE] + e);
  }

  /** A separator in one of the first three parts can be taken for the one before or after the part. */
  lemma SecondCut(p: Parts) returns (q: Parts)
    requires HasPipe(p)
    ensures q != p && q.env == p.env && BytesOf(q) == BytesOf(p)
  {
    hide Encoding, EnvBytes;
    if PIPE in p.repo {
      var i := SomeCut(p.repo, PIPE);
      q := p.(repo := p.repo[..i], goal := p.repo[i + 1..] + [PIPE] + p.goal);
      PipesAreAmbiguous(p.repo[..i], p.repo[i + 1..], p.goal, p.toolchain, p.env);
      assert |q.repo| < |p.repo|;
    } else if PIPE in p.goal {
      var i := SomeCut(p.goal, PIPE);
      q := p.(goal := p.goal[..i], toolchain := p.goal[i + 1..] + [PIPE] + p.toolchain);
      PipesAreAmbiguous(p.repo, p.goal[..i], p.goal[i + 1..], p.toolchain, p.env);
      assert |q.goal| < |p.goal|;
    } else {
      var i := SomeCut(p.toolchain, PIPE);
      q := p.(goal := p.goal + [PIPE] + p.toolchain[..i], toolchain := p.toolchain[i + 1..]);
      PipesAreAmbiguous(p.repo, p.goal, p.toolchain[..i], p.toolchain[i + 1..], p.env);
      assert |q.toolchain| < |p.toolchain|;
    }
  }

  /** The variables before a separator among the variables can be taken for the toolchain. */
  lemma SecondEnv(p: Parts, hidden: Bytes, env: Env) returns (q: Parts)
    requires EnvBytes(p.env) == hidden + [PIPE] + EnvBytes(env)
    ensures q == Parts(p.repo, p.goal + [PIPE] + p.toolchain, hidden, env) && q != p && BytesOf(q) == BytesOf(p)
  {
    hide EnvBytes;
    q := Parts(p.repo, p.goal + [PIPE] + p.toolchain, hidden, env);
    PartsFrom(p.repo, p.goal, p.toolchain, p.env, env, hidden);
    hide Encoding;
    assert |q.goal| > |p.goal|;
  }

  /** One of the parts contains a separator, or the variables hide others: then there is a second clean reading. */
  lemma SecondReading(p: Parts) returns (q: Parts)
    requires CleanEnv(p.env) && (HasPipe(p) || HidesEnv(p.env))
    ensures q != p && CleanEnv(q.env) && BytesOf(q) == BytesOf(p)
  {
    if HasPipe(p) {
      q := SecondCut(p);
    } else {
      hide Encoding, EnvBytes;
      var s := EnvBytes(p.env);
      var i :| 0 <= i < |s| && s[i] == PIPE && ParseEnv(s[i + 1..]).Some?;
      CutAt(s, i);
      ParseIsSound(s[i + 1..], None);
      q := SecondEnv(p, s[..i], ParseEnv(s[i + 1..]).value);
    }
  }

  /** Conversely a second clean reading needs a separator in a part, or variables that hide others. */
  lemma OnlyReading(p: Parts, q: Parts)
    requires CleanEnv(p.env) && CleanEnv(q.env) && BytesOf(p) == BytesOf(q)
    requires !HasPipe(p) && !HidesEnv(p.env)
    ensures p == q
  {
    HeadThenEnv(p);
    HeadThenEnv(q);
    NoMarks(p.repo);
    NoMarks(p.goal);
    NoMarks(p.toolchain);
    assert Marks(Head(p)) == 3;
    hide Encoding, EnvBytes, Head, Marks, HasPipe, HidesEnv, BytesOf;
    var s, h, h', e, e' := BytesOf(p), Head(p), Head(q), EnvBytes(p.env), EnvBytes(q.env);
    HeadsAlign(s, h, h', e, e');
    NoHiddenEnv(p.env, q.env, s, h, h');
    assert h == s[..|h|] && h' == s[..|h|];
    assert e == s[|h|..] && e' == s[|h|..];
    SameHead(p, q);
    EnvIsDetermined(p.env, q.env);
  }

  lemma LastMark(a: Bytes, b: Bytes)
    requires b != [] && b[|b| - 1] == PIPE
    ensures Marks(a + b) > Marks(a)
  {
    MarksConcat(a, b);
    NoMarks(b);
    assert b[|b| - 1] in b;
  }

  lemma ShorterPrefix(h: Bytes, e: Bytes, h': Bytes, e': Bytes)
    requires h + e == h' + e' && |h'| <= |h|
    ensures h == h' + h[|h'|..]
  {
    assert h == (h + e)[..|h|] && h' == (h' + e')[..|h'|];
    assert h[..|h'|] == h';
  }

  /** A head has at least three separators and ends in one, so it does not stop short of a head with exactly three. */
  lemma HeadsAlign(s: Bytes, h: Bytes, h': Bytes, e: Bytes, e': Bytes)
    requires s == h + e && s == h' + e' && Marks(h) == 3 && Marks(h') >= 3
    requires |h| > 0 && h[|h| - 1] == PIPE
    ensures |h| <= |h'|
  {
    hide Marks;
    if |h'| < |h| {
      ShorterPrefix(h, e, h', e');
      assert h[|h'|..][|h| - |h'| - 1] == PIPE;
      LastMark(h', h[|h'|..]);
    }
  }

  lemma HidesSuffix(env: Env, env': Env, n: nat)
    requires CleanEnv(env') && 0 < n <= |EnvBytes(env)|
    requires EnvBytes(env)[n - 1] == PIPE && EnvBytes(env)[n..] == EnvBytes(env')
    ensures HidesEnv(env)
  {
    hide CleanEnv, EnvBytes, ParsePairs;
    EnvRoundTrip(EnvBytes(env'), env');
    var i := n - 1;
    assert EnvBytes(env)[i + 1..] == EnvBytes(env)[n..];
  }

  lemma NoHiddenEnv(env: Env, env': Env, s: Bytes, h: Bytes, h': Bytes)
    requires CleanEnv(env') && !HidesEnv(env)
    requires s == h + EnvBytes(env) && s == h' + EnvBytes(env') && |h| <= |h'|
    requires |h'| > 0 && h'[|h'| - 1] == PIPE
    ensures |h| == |h'|
  {
    hide HidesEnv, CleanEnv, EnvBytes;
    var e, n := EnvBytes(env), |h'| - |h|;
    assert e[n..] == EnvBytes(env') by { assert e[n..] == s[|h'|..]; }
    assert s[|h'| - 1] == PIPE;
    if n > 0 {
      assert e[n - 1] == s[|h'| - 1];
      HidesSuffix(env, env', n);
    }
  }

  /**
    Among parts whose keys have no '=' and whose values have no ';', a separator has to occur in the first three, or
    one among the variables has to be followed by bytes that read as variables themselves.
   */
  lemma ConfusedAmongClean(p: Parts)
    requires CleanEnv(p.env)
    ensures CleanlyConfusable(p) <==> HasPipe(p) || HidesEnv(p.env)
    ensures PIPE !in EnvBytes(p.env) ==> (CleanlyConfusable(p) <==> HasPipe(p))
  {
    if HasPipe(p) || HidesEnv(p.env) {
      var q := SecondReading(p);
    } else if CleanlyConfusable(p) {
      var q :| q != p && CleanEnv(q.env) && BytesOf(q) == BytesOf(p);
      OnlyReading(p, q);
    }
  }

  /** The bytes of the variables contain a separator exactly when a key or a value does. */
  lemma {:induction false} PipeInEnv(env: Env)
    ensures PIPE in EnvBytes(env) <==> exists k :: k in env && (PIPE in k || PIPE in env[k])
    decreases |env|
  {
    if env != map[] {
      assert env.Keys != {};
      FirstIsThere(env.Keys);
      var k := First(env.Keys);
      PipeInEnv(env - {k});
      assert EnvBytes(env) == PairBytes(k, env[k]) + EnvBytes(env - {k});
      assert forall j :: j in env <==> j == k || j in env - {k};
    }
  }

  lemma FirstRenamed(env: Env, k: Bytes, v: Bytes, x: Bytes, w: Bytes)
    requires LexLess(x, k) && PairBytes(k, v) == PairBytes(x, w)
    requires forall j :: j in env ==> LexLess(k, j)
    ensures env[k := v] != env[x := w] && EnvBytes(env[k := v]) == EnvBytes(env[x := w])
  {
    forall j | j in env
      ensures LexLess(x, j)
    {
      LexTransitive(x, k, j);
    }
    hide LexLess, PairBytes;
    AddFirst(env, k, v);
    AddFirst(env, x, w);
    assert x != k by { LexTotal(x, k); }
    assert k in env[k := v] && k !in env[x := w];
  }

  /** The key of a first variable may end at any '=' of its bytes. */
  lemma KeyEndsAnywhere(env: Env, x: Bytes, y: Bytes, v: Bytes)
    requires forall j :: j in env ==> LexLess(x + [EQUALS] + y, j)
    ensures env[x + [EQUALS] + y := v] != env[x := y + [EQUALS] + v]
    ensures EnvBytes(env[x + [EQUALS] + y := v]) == EnvBytes(env[x := y + [EQUALS] + v])
  {
    hide LexLess, EnvBytes;
    var k := x + [EQUALS] + y;
    PrefixIsLess(x, [EQUALS] + y);
    assert x + ([EQUALS] + y) == k;
    assert PairBytes(k, v) == PairBytes(x, y + [EQUALS] + v);
    hide PairBytes;
    FirstRenamed(env, k, v, x, y + [EQUALS] + v);
  }

  lemma {:induction false} PrefixIsLess(x: Bytes, y: Bytes)
    requires y != []
    ensures LexLess(x, x + y)
  {
    if x == [] {
      assert x + y == y;
    } else {
      PrefixIsLess(x[1..], y);
      assert (x + y)[1..] == x[1..] + y;
    }
  }

  lemma SingleBytes(k: Bytes, v: Bytes)
    ensures EnvBytes(map[k := v]) == PairBytes(k, v)
  {
    AddFirst(map[], k, v);
    assert EnvBytes(map[]) == [] && map[][k := v] == map[k := v];
    hide PairBytes, EnvBytes;
  }

  lemma {:induction false} EnvEnds(env: Env)
    requires env != map[]
    ensures |EnvBytes(env)| > 0 && EnvBytes(env)[|EnvBytes(env)| - 1] == SEMICOLON && EQUALS in EnvBytes(env)
    decreases |env|
  {
    assert env.Keys != {};
    FirstIsThere(env.Keys);
    var k := First(env.Keys);
    var pair, rest := PairBytes(k, env[k]), EnvBytes(env - {k});
    assert EnvBytes(env) == pair + rest;
    assert (pair + rest)[|k|] == EQUALS && pair[|pair| - 1] == SEMICOLON;
    if env - {k} != map[] {
      EnvEnds(env - {k});
    }
  }

  lemma LongValue(k: Bytes, v: Bytes, body: Bytes)
    ensures PairBytes(k, v) + (body + [SEMICOLON]) == PairBytes(k, v + [SEMICOLON] + body)
  {
  }

  /** Several variables always have the bytes of a single one, whose value contains a ';' and all the others. */
  lemma SemicolonIsAmbiguous(env: Env, k: Bytes) returns (v: Bytes)
    requires env != map[] && k == First(env.Keys) && env.Keys != {k}
    ensures SEMICOLON in v && map[k := v] != env && EnvBytes(map[k := v]) == EnvBytes(env)
  {
    FirstIsThere(env.Keys);
    hide PairBytes, LexLess, IsFirst;
    var others := env - {k};
    assert others != map[] && map[k := env[k]] != env;
    EnvEnds(others);
    var rest := EnvBytes(others);
    var body := rest[..|rest| - 1];
    assert rest == body + [SEMICOLON];
    v := env[k] + [SEMICOLON] + body;
    assert v[|env[k]|] == SEMICOLON;
    SingleBytes(k, v);
    LongValue(k, env[k], body);
  }

  /** At most one variable, without '=' in it and without '|' in its key. */
  ghost predicate OneReading(env: Env) {
    env == map[] || exists k :: env.Keys == {k} && EQUALS !in k && EQUALS !in env[k] && PIPE !in k
  }

  lemma SomeCut(s: Bytes, c: int) returns (i: nat)
    requires c in s
    ensures i < |s| && s == s[..i] + [c] + s[i + 1..]
  {
    i :| 0 <= i < |s| && s[i] == c;
    CutAt(s, i);
  }

  /** The bytes of a single variable with an '=' in its key or its value have another reading as a variable. */
  lemma SecondSplit(k: Bytes, v: Bytes) returns (env: Env)
    requires EQUALS in k || EQUALS in v
    ensures env != map[k := v] && EnvBytes(env) == EnvBytes(map[k := v])
  {
    hide EnvBytes;
    if EQUALS in k {
      var i := SomeCut(k, EQUALS);
      env := map[k[..i] := k[i + 1..] + [EQUALS] + v];
      KeyEndsAnywhere(map[], k[..i], k[i + 1..], v);
    } else {
      var i := SomeCut(v, EQUALS);
      env := map[k + [EQUALS] + v[..i] := v[i + 1..]];
      KeyEndsAnywhere(map[], k, v[..i], v[i + 1..]);
    }
  }

  lemma PipeInKey(k: Bytes, v: Bytes) returns (hidden: Bytes, env: Env)
    requires PIPE in k
    ensures EnvBytes(map[k := v]) == hidden + [PIPE] + EnvBytes(env)
  {
    var i := SomeCut(k, PIPE);
    hidden, env := k[..i], map[k[i + 1..] := v];
    SingleBytes(k, v);
    SingleBytes(k[i + 1..], v);
    hide EnvBytes;
    assert PairBytes(hidden + [PIPE] + k[i + 1..], v) == hidden + [PIPE] + PairBytes(k[i + 1..], v);
  }

  lemma OtherEnv(p: Parts, env: Env) returns (q: Parts)
    requires env != p.env && EnvBytes(env) == EnvBytes(p.env)
    ensures q != p && BytesOf(q) == BytesOf(p)
  {
    q := p.(env := env);
  }

  /** Two variables, an '=' in a variable or a '|' anywhere before its '=': there is a second reading. */
  lemma AnotherReading(p: Parts) returns (q: Parts)
    requires HasPipe(p) || !OneReading(p.env)
    ensures q != p && BytesOf(q) == BytesOf(p)
  {
    hide EnvBytes, Encoding, BytesOf;
    if HasPipe(p) {
      q := SecondCut(p);
    } else {
      assert p.env.Keys != {};
      FirstIsThere(p.env.Keys);
      var k := First(p.env.Keys);
      if p.env.Keys != {k} {
        var v := SemicolonIsAmbiguous(p.env, k);
        q := OtherEnv(p, map[k := v]);
      } else {
        var v := p.env[k];
        assert p.env == map[k := v];
        if EQUALS in k || EQUALS in v {
          var env := SecondSplit(k, v);
          q := OtherEnv(p, env);
        } else {
          var hidden, env := PipeInKey(k, v);
          q := SecondEnv(p, hidden, env);
        }
      }
    }
  }

  /** A suffix of the bytes of one plain variable that begins after a '|' has no '=' left. */
  lemma NoSuffix(k: Bytes, v: Bytes, env: Env, n: nat)
    requires EQUALS !in k && EQUALS !in v && PIPE !in k
    requires 0 < n <= |PairBytes(k, v)| && PairBytes(k, v)[n - 1] == PIPE
    ensures PairBytes(k, v)[n..] != EnvBytes(env)
  {
    var s := PairBytes(k, v);
    assert s[|k|] == EQUALS && s[|s| - 1] == SEMICOLON;
    assert forall i :: 0 <= i < |k| ==> s[i] == k[i];
    assert n - 1 > |k|;
    assert s[n..] != [];
    forall i | 0 <= i < |s[n..]|
      ensures s[n..][i] != EQUALS
    {
      var at := n + i - |k| - 1;
      assert s[n + i] == if at < |v| then v[at] else SEMICOLON;
    }
    if env != map[] { EnvEnds(env); }
  }

  lemma OneReadingStarts(env: Env, env': Env, n: nat)
    requires OneReading(env) && 0 < n <= |EnvBytes(env)| && EnvBytes(env)[n - 1] == PIPE
    ensures EnvBytes(env)[n..] != EnvBytes(env')
  {
    var k :| env.Keys == {k} && EQUALS !in k && EQUALS !in env[k] && PIPE !in k;
    assert env == map[k := env[k]];
    SingleBytes(k, env[k]);
    NoSuffix(k, env[k], env', n);
  }

  /** The bytes of one plain variable are those of no other variables. */
  lemma PlainPairIsOnly(k: Bytes, v: Bytes, env: Env)
    requires EQUALS !in k && EQUALS !in v && EnvBytes(env) == PairBytes(k, v)
    ensures env == map[k := v]
  {
    assert env.Keys != {};
    FirstIsThere(env.Keys);
    var j := First(env.Keys);
    var others, tail := env - {j}, v + [SEMICOLON];
    var rest := EnvBytes(others);
    PairThenRest(k, v, []);
    PairThenRest(j, env[j], rest);
    assert PairBytes(k, v) + [] == PairBytes(k, v);
    hide PairBytes;
    assert tail + [] == tail;
    OneMarkOnly(k, tail, j, env[j] + [SEMICOLON] + rest, EQUALS);
    if others != map[] {
      EnvEnds(others);
    }
    assert others == map[];
    assert rest == [] && env[j] + [SEMICOLON] + [] == env[j] + [SEMICOLON];
    assert (env[j] + [SEMICOLON])[..|v|] == v;
    forall i | i in env
      ensures i == j
    {
      assert i == j || i in others;
    }
    assert env.Keys == {j};
  }

  /** A text with a single mark can be split at it in one way only. */
  lemma OneMarkOnly(a: Bytes, x: Bytes, b: Bytes, y: Bytes, c: int)
    requires c !in a && c !in x && a + [c] + x == b + [c] + y
    ensures a == b && x == y
  {
    var s := a + [c] + x;
    assert s[|b|] == c;
    assert forall i :: 0 <= i < |s| && i != |a| ==> s[i] == if i < |a| then a[i] else x[i - |a| - 1];
    assert |a| == |b|;
    assert a == s[..|a|] && b == s[..|a|];
    assert x == s[|a| + 1..] && y == s[|a| + 1..];
  }

  lemma PlainEnvIsOnly(env: Env, env': Env)
    requires OneReading(env) && EnvBytes(env) == EnvBytes(env')
    ensures env == env'
  {
    if env == map[] {
      if env' != map[] { EnvEnds(env'); }
    } else {
      var k :| env.Keys == {k} && EQUALS !in k && EQUALS !in env[k] && PIPE !in k;
      assert env == map[k := env[k]];
      SingleBytes(k, env[k]);
      PlainPairIsOnly(k, env[k], env');
    }
  }

  /** Where a shorter prefix ends in a separator, the longer suffix holds one before the shorter suffix. */
  lemma SuffixBehindMark(h: Bytes, e: Bytes, h': Bytes, e': Bytes)
    requires h + e == h' + e' && |h| < |h'| && h'[|h'| - 1] == PIPE
    ensures |h'| - |h| <= |e| && e[|h'| - |h| - 1] == PIPE && e[|h'| - |h|..] == e'
  {
    var s, n := h + e, |h'| - |h|;
    assert s[|h'| - 1] == PIPE && e[n - 1] == s[|h'| - 1];
    assert e[n..] == s[|h'|..] == e';
  }

  lemma SameCut(h: Bytes, e: Bytes, h': Bytes, e': Bytes)
    requires h + e == h' + e' && |h| == |h'|
    ensures h == h' && e == e'
  {
    assert h == (h + e)[..|h|] && h' == (h' + e')[..|h|];
    assert e == (h + e)[|h|..] && e' == (h' + e')[|h|..];
  }

  /** Heads and variables begin at the same place. */
  lemma SameStart(p: Parts, q: Parts)
    requires BytesOf(p) == BytesOf(q) && !HasPipe(p) && OneReading(p.env)
    ensures Head(p) == Head(q) && EnvBytes(p.env) == EnvBytes(q.env)
  {
    HeadThenEnv(p);
    HeadThenEnv(q);
    NoMarks(p.repo);
    NoMarks(p.goal);
    NoMarks(p.toolchain);
    assert Marks(Head(p)) == 3;
    hide Encoding, EnvBytes, Head, Marks, HasPipe, BytesOf, OneReading;
    var h, h', e, e' := Head(p), Head(q), EnvBytes(p.env), EnvBytes(q.env);
    HeadsAlign(BytesOf(p), h, h', e, e');
    if |h| < |h'| {
      SuffixBehindMark(h, e, h', e');
      OneReadingStarts(p.env, q.env, |h'| - |h|);
    } else {
      SameCut(h, e, h', e');
    }
  }

  /**
    Parts share their bytes with others unless none of the first three contains a separator and there is at most one
    variable, with no '=' in its key or value and no separator in its key. Nothing is asked of either side.
   */
  lemma ConfusedExactly(p: Parts)
    ensures Confusable(p) <==> HasPipe(p) || !OneReading(p.env)
  {
    if HasPipe(p) || !OneReading(p.env) {
      var q := AnotherReading(p);
    } else if Confusable(p) {
      var q :| q != p && BytesOf(q) == BytesOf(p);
      SameStart(p, q);
      SameHead(p, q);
      PlainEnvIsOnly(p.env, q.env);
    }
  }

  /** An '=' in any key or any value gives a second reading. */
  lemma EqualsIsAmbiguous(p: Parts, k: Bytes)
    requires k in p.env && (EQUALS in k || EQUALS in p.env[k])
    ensures Confusable(p)
  {
    ConfusedExactly(p);
    assert !OneReading(p.env) by {
      assert forall j :: p.env.Keys == {j} ==> j == k;
    }
  }
}
