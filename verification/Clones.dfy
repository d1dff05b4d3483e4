/**
 Clone detection by rolling-window fingerprints. A key stands for a function's
 (file, name, line) triple by its place in tuple order.
 */
module Clones {
  import opened Ordering
  import opened Reals

  const BASE: int := 1_000_003
  const MOD: int := 0x1_0000_0000_0000_0000 - 59

  // ---------------------------------------------------------------- arithmetic

  lemma {:induction false} AddMultiple(x: int, k: int, m: int)
    requires m > 0
    ensures (x + k * m) % m == x % m
    decreases if k < 0 then -k else k
  {
    if k > 0 {
      AddMultiple(x, k - 1, m);
      assert x + k * m == (x + (k - 1) * m) + m;
      AddOne(x + (k - 1) * m, m);
    } else if k < 0 {
      AddMultiple(x, k + 1, m);
      assert x + (k + 1) * m == (x + k * m) + m;
      AddOne(x + k * m, m);
    }
  }

  lemma AddOne(x: int, m: int)
    requires m > 0
    ensures (x + m) % m == x % m
  {
    var q, r := x / m, x % m;
    assert x == q * m + r;
    assert x + m == (q + 1) * m + r;
    DivisionIsUnique(x + m, q + 1, r, m);
  }

  lemma DivisionIsUnique(x: int, q: int, r: int, m: int)
    requires m > 0 && x == q * m + r && 0 <= r < m
    ensures x % m == r
  {
    var d := x / m - q;
    assert d * m == r - x % m;
    assert d >= 1 ==> d * m >= m;
    assert d <= -1 ==> d * m <= -m;
  }

  /** Reducing a part of a sum or product first does not change the remainder. */
  lemma ReduceSummand(a: int, b: int, m: int)
    requires m > 0
    ensures (a % m + b) % m == (a + b) % m
    ensures (b - a % m) % m == (b - a) % m
  {
    var q := a / m;
    assert a == q * m + a % m;
    AddMultiple(a % m + b, q, m);
    assert b - a == (b - a % m) + (-q) * m;
    AddMultiple(b - a % m, -q, m);
  }

  lemma ReduceFactor(a: int, b: int, m: int)
    requires m > 0
    ensures ((a % m) * b) % m == (a * b) % m
  {
    var q := a / m;
    assert a == q * m + a % m;
    assert a * b == (a % m) * b + (q * b) * m;
    AddMultiple((a % m) * b, q * b, m);
  }

  ghost function Pow(b: int, e: nat): int {
    if e == 0 then 1 else Pow(b, e - 1) * b
  }

  /** The polynomial a window stands for, most significant token first. */
  ghost function Poly(window: seq<int>): int {
    if window == [] then 0 else Poly(window[..|window| - 1]) * BASE + window[|window| - 1]
  }

  /** The direct hash of a window. */
  ghost function Hash(window: seq<int>): int {
    Poly(window) % MOD
  }

  lemma PolyAppend(window: seq<int>, x: int)
    ensures Poly(window + [x]) == Poly(window) * BASE + x
  {
    assert (window + [x])[..|window|] == window;
  }

  lemma {:induction false} PolyPrepend(x: int, window: seq<int>)
    ensures Poly([x] + window) == x * Pow(BASE, |window|) + Poly(window)
  {
    if window == [] {
      assert [x] + window == [x];
      assert Poly([x]) == Poly([]) * BASE + x;
    } else {
      var front, last := window[..|window| - 1], window[|window| - 1];
      PolyPrepend(x, front);
      assert [x] + window == ([x] + front) + [last];
      PolyAppend([x] + front, last);
      calc {
        Poly([x] + window);
        (x * Pow(BASE, |front|) + Poly(front)) * BASE + last;
        { Distribute(x * Pow(BASE, |front|), Poly(front), BASE); }
        x * Pow(BASE, |front|) * BASE + Poly(front) * BASE + last;
        { Associate(x, Pow(BASE, |front|), BASE); }
        x * Pow(BASE, |window|) + Poly(window);
      }
    }
  }

  lemma Distribute(a: int, b: int, c: int)
    ensures (a + b) * c == a * c + b * c
  {
  }

  lemma Associate(a: int, b: int, c: int)
    ensures a * b * c == a * (b * c)
  {
  }

  /** Appending a token to a reduced hash. */
  function AppendToken(rolling: int, x: int): int {
    (rolling * BASE + x) % MOD
  }

  /** Removing the leading token, given the reduced leading power. */
  function DropToken(rolling: int, left: int, power: int): int {
    (rolling - (left * power) % MOD) % MOD
  }

  /** One Horner step on reduced values is one step on the polynomial. */
  lemma HornerStep(window: seq<int>, x: int)
    ensures AppendToken(Hash(window), x) == Hash(window + [x])
  {
    PolyAppend(window, x);
    ReduceFactor(Poly(window), BASE, MOD);
    ReduceSummand(Hash(window) * BASE, x, MOD);
    ReduceSummand(Poly(window) * BASE, x, MOD);
  }

  /** Removing the leading token from a reduced hash. */
  lemma DropLeading(x: int, rest: seq<int>)
    ensures DropToken(Hash([x] + rest), x, Pow(BASE, |rest|) % MOD) == Hash(rest)
  {
    PolyPrepend(x, rest);
    DropTerm(Poly([x] + rest), x, Pow(BASE, |rest|), Poly(rest));
  }

  lemma DropTerm(h: int, x: int, power: int, rest: int)
    requires h == x * power + rest
    ensures DropToken(h % MOD, x, power % MOD) == rest % MOD
  {
    Commute(x, power);
    Commute(x, power % MOD);
    ReduceFactor(power, x, MOD);
    DifferenceReduced(h, power * x, MOD);
  }

  lemma Commute(a: int, b: int)
    ensures a * b == b * a
  {
  }

  lemma DifferenceReduced(a: int, b: int, m: int)
    requires m > 0
    ensures (a % m - b % m) % m == (a - b) % m
  {
    ReduceSummand(b, a % m, m);
    ReduceSummand(a, -b, m);
  }

  /** The update in the loop: drop the leftmost token, append the next. */
  lemma RollStep(window: seq<int>, x: int)
    requires window != []
    ensures AppendToken(DropToken(Hash(window), window[0], Pow(BASE, |window| - 1) % MOD), x) == Hash(window[1..] + [x])
  {
    var left, rest := window[0], window[1..];
    assert window == [left] + rest;
    DropLeading(left, rest);
    HornerStep(rest, x);
  }

  function PowMod(b: int, e: nat): (r: int)
    ensures r == Pow(b, e) % MOD
  {
    if e == 0 then 1 % MOD
    else
      ReduceFactor(Pow(b, e - 1), b, MOD);
      (PowMod(b, e - 1) * b) % MOD
  }

  // ---------------------------------------------------------------- fingerprints of one function

  datatype Token = Token(text: nat)

  /** `digest` is the token's 64-bit digest read as a number. */
  type Digest = Token -> nat

  datatype Func = Func(key: Id, tokens: seq<Token>)

  function TokenValues(digest: Digest, tokens: seq<Token>): (vals: seq<int>)
    ensures |vals| == |tokens| && forall i | 0 <= i < |vals| :: vals[i] == digest(tokens[i]) % MOD
  {
    seq(|tokens|, i requires 0 <= i < |tokens| => digest(tokens[i]) % MOD)
  }

  /** How many windows of `k` tokens there are. */
  function WindowCount(n: nat, k: nat): nat {
    if n < k then 0 else n - k + 1
  }

  /** A window hash as an index key. */
  datatype Print = Print(value: int)

  /** The direct hash of the window starting at `i`. */
  ghost function PrintAt(vals: seq<int>, k: nat, i: nat): Print
    requires i < WindowCount(|vals|, k)
  {
    Print(Hash(vals[i..i + k]))
  }

  /** The direct hashes of the first `m` windows. */
  ghost function WindowHashes(vals: seq<int>, k: nat, m: nat): set<Print>
    requires m <= WindowCount(|vals|, k)
  {
    set i: nat | i < m :: PrintAt(vals, k, i)
  }

  lemma OneMoreWindow(vals: seq<int>, k: nat, m: nat)
    requires m < WindowCount(|vals|, k)
    ensures WindowHashes(vals, k, m + 1) == WindowHashes(vals, k, m) + {PrintAt(vals, k, m)}
  {
    assert PrintAt(vals, k, m) in WindowHashes(vals, k, m + 1);
  }

  lemma {:induction false} FewerHashesThanWindows(vals: seq<int>, k: nat, m: nat)
    requires m <= WindowCount(|vals|, k)
    ensures |WindowHashes(vals, k, m)| <= m
  {
    if m == 0 {
      assert WindowHashes(vals, k, 0) == {};
    } else {
      FewerHashesThanWindows(vals, k, m - 1);
      HashesGrow(vals, k, m - 1);
    }
  }

  lemma HashesGrow(vals: seq<int>, k: nat, m: nat)
    requires m < WindowCount(|vals|, k)
    ensures |WindowHashes(vals, k, m + 1)| == |WindowHashes(vals, k, m)| +
      if PrintAt(vals, k, m) in WindowHashes(vals, k, m) then 0 else 1
  {
    OneMoreWindow(vals, k, m);
    if PrintAt(vals, k, m) in WindowHashes(vals, k, m) {
      assert WindowHashes(vals, k, m) + {PrintAt(vals, k, m)} == WindowHashes(vals, k, m);
    }
  }

  /**
   The rolling loop: the first window is hashed directly, every later one is
   obtained from its predecessor. What it collects are the direct hashes.
   */
  method RollWindows(vals: seq<int>, k: nat) returns (hashes: set<Print>)
    requires 1 <= k <= |vals|
    ensures hashes == WindowHashes(vals, k, WindowCount(|vals|, k))
  {
    var power := PowMod(BASE, k - 1);
    var rolling := HashFirst(vals, k);
    hashes := {Print(rolling)};
    assert WindowHashes(vals, k, 0) == {};
    OneMoreWindow(vals, k, 0);
    for idx := k to |vals|
      invariant rolling == Hash(vals[idx - k..idx])
      invariant hashes == WindowHashes(vals, k, idx - k + 1)
    {
      RollForward(vals, k, idx);
      OneMoreWindow(vals, k, idx - k + 1);
      rolling := DropToken(rolling, vals[idx - k], power);
      rolling := AppendToken(rolling, vals[idx]);
      assert Print(rolling) == PrintAt(vals, k, idx - k + 1);
      hashes := hashes + {Print(rolling)};
    }
  }

  /** The first window, hashed token by token. */
  method HashFirst(vals: seq<int>, k: nat) returns (rolling: int)
    requires k <= |vals|
    ensures rolling == Hash(vals[0..k])
  {
    rolling := 0;
    for i := 0 to k
      invariant rolling == Hash(vals[..i])
    {
      HornerStep(vals[..i], vals[i]);
      assert vals[..i + 1] == vals[..i] + [vals[i]];
      rolling := AppendToken(rolling, vals[i]);
    }
    assert vals[0..k] == vals[..k];
  }

  lemma RollForward(vals: seq<int>, k: nat, idx: nat)
    requires 1 <= k <= idx < |vals|
    ensures AppendToken(DropToken(Hash(vals[idx - k..idx]), vals[idx - k], Pow(BASE, k - 1) % MOD), vals[idx])
            == Hash(vals[idx + 1 - k..idx + 1])
  {
    var window := vals[idx - k..idx];
    RollStep(window, vals[idx]);
    assert window[1..] + [vals[idx]] == vals[idx + 1 - k..idx + 1];
  }

  // ---------------------------------------------------------------- the inverted index

  /** All window hashes of a function; none if it is too short. */
  ghost function Fingerprint(digest: Digest, f: Func, k: nat): set<Print> {
    WindowHashes(TokenValues(digest, f.tokens), k, WindowCount(|f.tokens|, k))
  }

  /** The hashes recorded for a key by the first `n` functions. */
  ghost function HashesOf(digest: Digest, funcs: seq<Func>, n: nat, k: nat, key: Id): set<Print>
    requires n <= |funcs|
  {
    if n == 0 then {}
    else
      HashesOf(digest, funcs, n - 1, k, key) +
        if funcs[n - 1].key == key then Fingerprint(digest, funcs[n - 1], k) else {}
  }

  /** The window count recorded last for a key. */
  function WindowsOf(funcs: seq<Func>, n: nat, k: nat): map<Id, nat>
    requires n <= |funcs|
  {
    if n == 0 then map[]
    else if |funcs[n - 1].tokens| < k then WindowsOf(funcs, n - 1, k)
    else WindowsOf(funcs, n - 1, k)[funcs[n - 1].key := WindowCount(|funcs[n - 1].tokens|, k)]
  }

  ghost predicate Has(index: map<Print, set<Id>>, h: Print, key: Id) {
    h in index && key in index[h]
  }

  /** Each hash maps to exactly the keys that have it. */
  ghost predicate Inverts(index: map<Print, set<Id>>, digest: Digest, funcs: seq<Func>, n: nat, k: nat)
    requires n <= |funcs|
  {
    forall h, key :: Has(index, h, key) <==> h in HashesOf(digest, funcs, n, k, key)
  }

  method AddToIndex(index: map<Print, set<Id>>, hashes: set<Print>, key: Id) returns (index': map<Print, set<Id>>)
    ensures forall h, x :: Has(index', h, x) <==> Has(index, h, x) || (h in hashes && x == key)
  {
    index' := index;
    var rest := hashes;
    ghost var done: set<Print> := {};
    while rest != {}
      invariant done + rest == hashes && done !! rest
      invariant forall h, x :: Has(index', h, x) <==> Has(index, h, x) || (h in done && x == key)
      decreases |rest|
    {
      var g :| g in rest;
      ghost var before := index';
      index' := index'[g := (if g in index' then index'[g] else {}) + {key}];
      forall h, x ensures Has(index', h, x) <==> Has(before, h, x) || (h == g && x == key) { }
      rest, done := rest - {g}, done + {g};
    }
  }

  /** Fingerprints every function that is long enough. */
  method BuildIndex(digest: Digest, funcs: seq<Func>, k: nat) returns (index: map<Print, set<Id>>, counts: map<Id, nat>)
    requires k >= 1
    ensures Inverts(index, digest, funcs, |funcs|, k)
    ensures counts == WindowsOf(funcs, |funcs|, k)
  {
    index, counts := map[], map[];
    for n := 0 to |funcs|
      invariant Inverts(index, digest, funcs, n, k)
      invariant counts == WindowsOf(funcs, n, k)
    {
      index, counts := AddFunction(index, counts, digest, funcs, n, k);
    }
  }

  method AddFunction(index: map<Print, set<Id>>, counts: map<Id, nat>, digest: Digest, funcs: seq<Func>, n: nat, k: nat)
    returns (index': map<Print, set<Id>>, counts': map<Id, nat>)
    requires k >= 1 && n < |funcs|
    requires Inverts(index, digest, funcs, n, k) && counts == WindowsOf(funcs, n, k)
    ensures Inverts(index', digest, funcs, n + 1, k) && counts' == WindowsOf(funcs, n + 1, k)
  {
    var f := funcs[n];
    index', counts' := index, counts;
    if |f.tokens| >= k {
      counts' := counts[f.key := WindowCount(|f.tokens|, k)];
      var hashes := RollWindows(TokenValues(digest, f.tokens), k);
      index' := AddToIndex(index, hashes, f.key);
      assert hashes == Fingerprint(digest, f, k);
    } else {
      assert Fingerprint(digest, f, k) == {};
    }
    forall h, key ensures Has(index', h, key) <==> h in HashesOf(digest, funcs, n + 1, k, key) {
      assert Has(index, h, key) <==> h in HashesOf(digest, funcs, n, k, key);
    }
  }

  // ---------------------------------------------------------------- counting shared hashes

  datatype Pair = Pair(a: Id, b: Id)

  function Ordered(x: Id, y: Id): Pair {
    if x.rank <= y.rank then Pair(x, y) else Pair(y, x)
  }

  function Get(shared: map<Pair, nat>, p: Pair): nat {
    if p in shared then shared[p] else 0
  }

  /** No zero entries are stored. */
  ghost predicate Positive(shared: map<Pair, nat>) {
    forall p | p in shared :: shared[p] > 0
  }

  /** The inner loop: one key against the rest of the list. */
  method PairWith(shared: map<Pair, nat>, x: Id, rest: seq<Id>) returns (shared': map<Pair, nat>)
    requires Distinct(rest) && x !in rest && Positive(shared)
    ensures Positive(shared')
    ensures forall p :: Get(shared', p) == Get(shared, p) + if exists y :: y in rest && p == Ordered(x, y) then 1 else 0
  {
    shared' := shared;
    for j := 0 to |rest|
      invariant Positive(shared')
      invariant forall p ::
        Get(shared', p) == Get(shared, p) + if exists y :: y in rest[..j] && p == Ordered(x, y) then 1 else 0
    {
      PrefixStep(rest, j);
      ghost var before := shared';
      var pair := Ordered(x, rest[j]);
      OrderedIsInjective(x, rest, j);
      shared' := shared'[pair := Get(shared', pair) + 1];
      forall p
        ensures Get(shared', p) == Get(shared, p) + if exists y :: y in rest[..j + 1] && p == Ordered(x, y) then 1 else 0
      {
        assert Get(before, p) == Get(shared, p) + if exists y :: y in rest[..j] && p == Ordered(x, y) then 1 else 0;
        if p == pair { assert rest[j] in rest[..j + 1]; }
      }
    }
    assert rest[..|rest|] == rest;
  }

  lemma OrderedIsInjective(x: Id, rest: seq<Id>, j: nat)
    requires Distinct(rest) && x !in rest && j < |rest|
    ensures !exists y :: y in rest[..j] && Ordered(x, rest[j]) == Ordered(x, y)
  {
  }

  /** Both members of the ordered pair are in the list. */
  ghost predicate Among(p: Pair, q: seq<Id>) {
    p.a.rank < p.b.rank && p.a in q && p.b in q
  }

  /** The two nested loops over the keys that share one hash. */
  method CountPairs(shared: map<Pair, nat>, q: seq<Id>) returns (shared': map<Pair, nat>)
    requires Distinct(q) && Positive(shared)
    ensures Positive(shared')
    ensures forall p :: Get(shared', p) == Get(shared, p) + if Among(p, q) then 1 else 0
  {
    shared' := shared;
    for i := 0 to |q|
      invariant Positive(shared')
      invariant forall p ::
        Get(shared', p) == Get(shared, p) + if Among(p, q) && (p.a in q[..i] || p.b in q[..i]) then 1 else 0
    {
      ghost var before := shared';
      RestIsDistinct(q, i);
      shared' := PairWith(shared', q[i], q[i + 1..]);
      forall p
        ensures Get(shared', p) == Get(shared, p) + if Among(p, q) && (p.a in q[..i + 1] || p.b in q[..i + 1]) then 1 else 0
      {
        PairsOfRow(q, i, p);
      }
    }
    assert q[..|q|] == q;
  }

  lemma RestIsDistinct(q: seq<Id>, i: nat)
    requires Distinct(q) && i < |q|
    ensures Distinct(q[i + 1..]) && q[i] !in q[i + 1..]
  {
  }

  /** A pair is met in row `i` exactly if `q[i]` is its first member to come up. */
  lemma PairsOfRow(q: seq<Id>, i: nat, p: Pair)
    requires Distinct(q) && i < |q|
    ensures (exists y :: y in q[i + 1..] && p == Ordered(q[i], y)) <==>
      Among(p, q) && !(p.a in q[..i] || p.b in q[..i]) && (p.a in q[..i + 1] || p.b in q[..i + 1])
  {
    PrefixStep(q, i);
    assert q == q[..i] + [q[i]] + q[i + 1..];
    if Among(p, q) && !(p.a in q[..i] || p.b in q[..i]) && (p.a in q[..i + 1] || p.b in q[..i + 1]) {
      var y := if p.a == q[i] then p.b else p.a;
      assert y in q[i + 1..] && p == Ordered(q[i], y);
    }
    if y :| y in q[i + 1..] && p == Ordered(q[i], y) {
      RestIsDistinct(q, i);
      assert y in q && y != q[i];
    }
  }

  // ---------------------------------------------------------------- shared counts are common hashes

  /** The hashes of `done` that index both keys. */
  ghost function CommonIn(index: map<Print, set<Id>>, done: set<Print>, a: Id, b: Id): set<Print> {
    set h | h in done && Has(index, h, a) && Has(index, h, b)
  }

  ghost predicate CountsCommon(shared: map<Pair, nat>, index: map<Print, set<Id>>, done: set<Print>) {
    && Positive(shared)
    && forall p :: Get(shared, p) == if p.a.rank < p.b.rank then |CommonIn(index, done, p.a, p.b)| else 0
  }

  lemma CountOneMore(shared: map<Pair, nat>, shared': map<Pair, nat>, index: map<Print, set<Id>>, done: set<Print>,
                     g: Print, q: seq<Id>)
    requires CountsCommon(shared, index, done) && Positive(shared') && g in index && g !in done
    requires forall x :: x in q <==> x in index[g]
    requires forall p :: Get(shared', p) == Get(shared, p) + if Among(p, q) then 1 else 0
    ensures CountsCommon(shared', index, done + {g})
  {
    forall p ensures Get(shared', p) == if p.a.rank < p.b.rank then |CommonIn(index, done + {g}, p.a, p.b)| else 0 {
      if Has(index, g, p.a) && Has(index, g, p.b) {
        assert CommonIn(index, done + {g}, p.a, p.b) == CommonIn(index, done, p.a, p.b) + {g};
      } else {
        assert CommonIn(index, done + {g}, p.a, p.b) == CommonIn(index, done, p.a, p.b);
      }
    }
  }

  /** Any listing of a set, without repeats. */
  method Listing(s: set<Id>) returns (q: seq<Id>)
    ensures Distinct(q) && forall x :: x in q <==> x in s
  {
    q := [];
    var rest := s;
    while rest != {}
      invariant rest <= s && Distinct(q) && forall x :: x in q <==> x in s && x !in rest
      decreases |rest|
    {
      var x :| x in rest;
      q := q + [x];
      rest := rest - {x};
    }
  }

  /** The loop over the index entries; entries and the keys in them may come in any order. */
  method CountShared(index: map<Print, set<Id>>) returns (shared: map<Pair, nat>)
    ensures CountsCommon(shared, index, index.Keys)
  {
    shared := map[];
    var rest := index.Keys;
    ghost var done: set<Print> := {};
    assert forall a, b :: CommonIn(index, {}, a, b) == {};
    while rest != {}
      invariant done + rest == index.Keys && done !! rest
      invariant CountsCommon(shared, index, done)
      decreases |rest|
    {
      var g :| g in rest;
      shared := CountEntry(shared, index, done, g);
      rest, done := rest - {g}, done + {g};
    }
  }

  method CountEntry(shared: map<Pair, nat>, index: map<Print, set<Id>>, ghost done: set<Print>, g: Print)
    returns (shared': map<Pair, nat>)
    requires CountsCommon(shared, index, done) && g in index && g !in done
    ensures CountsCommon(shared', index, done + {g})
  {
    var q := Listing(index[g]);
    if |q| < 2 {
      shared' := shared;
      assert forall p :: !Among(p, q);
    } else {
      shared' := CountPairs(shared, q);
    }
    CountOneMore(shared, shared', index, done, g, q);
  }

  // ---------------------------------------------------------------- the report

  /** The hashes two keys have in common. */
  ghost function CommonHashes(digest: Digest, funcs: seq<Func>, k: nat, a: Id, b: Id): set<Print> {
    HashesOf(digest, funcs, |funcs|, k, a) * HashesOf(digest, funcs, |funcs|, k, b)
  }

  function Similarity(common: nat, windowsA: nat, windowsB: nat): real
    requires windowsA + windowsB > 0
  {
    (2 * common) as real / (windowsA + windowsB) as real
  }

  lemma CommonIsIntersection(index: map<Print, set<Id>>, digest: Digest, funcs: seq<Func>, k: nat, a: Id, b: Id)
    requires Inverts(index, digest, funcs, |funcs|, k)
    ensures CommonIn(index, index.Keys, a, b) == CommonHashes(digest, funcs, k, a, b)
  {
    forall h ensures h in CommonIn(index, index.Keys, a, b) <==> h in CommonHashes(digest, funcs, k, a, b) {
      assert Has(index, h, a) <==> h in HashesOf(digest, funcs, |funcs|, k, a);
      assert Has(index, h, b) <==> h in HashesOf(digest, funcs, |funcs|, k, b);
    }
  }

  /** A key with a hash has a recorded, positive window count. */
  lemma {:induction false} HashedKeysAreCounted(digest: Digest, funcs: seq<Func>, n: nat, k: nat, key: Id)
    requires n <= |funcs|
    ensures HashesOf(digest, funcs, n, k, key) != {} ==> key in WindowsOf(funcs, n, k)
    ensures key in WindowsOf(funcs, n, k) ==> WindowsOf(funcs, n, k)[key] >= 1
  {
    if n > 0 {
      HashedKeysAreCounted(digest, funcs, n - 1, k, key);
      if |funcs[n - 1].tokens| < k { assert Fingerprint(digest, funcs[n - 1], k) == {}; }
    }
  }

  ghost predicate DistinctKeys(funcs: seq<Func>) {
    forall i, j | 0 <= i < j < |funcs| :: funcs[i].key != funcs[j].key
  }

  /** With one function per key a key has at most as many hashes as windows. */
  lemma {:induction false} HashesFitWindows(digest: Digest, funcs: seq<Func>, n: nat, k: nat, key: Id)
    requires n <= |funcs| && DistinctKeys(funcs)
    ensures (forall i | 0 <= i < n :: funcs[i].key != key) ==> HashesOf(digest, funcs, n, k, key) == {}
    ensures key in WindowsOf(funcs, n, k) ==> |HashesOf(digest, funcs, n, k, key)| <= WindowsOf(funcs, n, k)[key]
  {
    if n > 0 {
      HashesFitWindows(digest, funcs, n - 1, k, key);
      var f := funcs[n - 1];
      if f.key == key {
        FewerHashesThanWindows(TokenValues(digest, f.tokens), k, WindowCount(|f.tokens|, k));
        assert HashesOf(digest, funcs, n - 1, k, key) == {};
        if |f.tokens| < k { assert Fingerprint(digest, f, k) == {}; NotCountedBefore(funcs, n - 1, k, key); }
      }
    }
  }

  lemma {:induction false} NotCountedBefore(funcs: seq<Func>, n: nat, k: nat, key: Id)
    requires n <= |funcs| && forall i | 0 <= i < n :: funcs[i].key != key
    ensures key !in WindowsOf(funcs, n, k)
  {
    if n > 0 { NotCountedBefore(funcs, n - 1, k, key); }
  }

  /** With one function per key, a pair that shares a hash has a similarity above zero and at most one. */
  lemma SimilarityIsAProportion(digest: Digest, funcs: seq<Func>, k: nat, a: Id, b: Id)
    requires DistinctKeys(funcs) && CommonHashes(digest, funcs, k, a, b) != {}
    ensures var windows := WindowsOf(funcs, |funcs|, k);
      && a in windows && b in windows && windows[a] + windows[b] > 0
      && 0.0 < Similarity(|CommonHashes(digest, funcs, k, a, b)|, windows[a], windows[b]) <= 1.0
  {
    var n := |funcs|;
    var common := CommonHashes(digest, funcs, k, a, b);
    var windows := WindowsOf(funcs, n, k);
    HashedKeysAreCounted(digest, funcs, n, k, a);
    HashedKeysAreCounted(digest, funcs, n, k, b);
    HashesFitWindows(digest, funcs, n, k, a);
    HashesFitWindows(digest, funcs, n, k, b);
    SubsetSize(common, HashesOf(digest, funcs, n, k, a));
    SubsetSize(common, HashesOf(digest, funcs, n, k, b));
    var h :| h in common;
    SubsetSize({h}, common);
    Proportion(2 * |common|, windows[a] + windows[b]);
  }

  lemma Proportion(x: int, y: int)
    requires 0 < x <= y
    ensures 0.0 < x as real / y as real <= 1.0
  {
  }

  /** How many hashes two functions share, and how many windows they have together. */
  datatype Overlap = Overlap(common: nat, windows: nat)

  /** Shared hashes, twice, per window. */
  predicate IsSimilarity(q: real, overlap: Overlap) {
    Times(q, overlap.windows as real) == (2 * overlap.common) as real
  }

  predicate IsSimilarEnough(overlap: Overlap, threshold: real) {
    (2 * overlap.common) as real >= Times(threshold, overlap.windows as real)
  }

  /** The pair is reported, with its similarity, if it shares a hash and reaches the threshold. */
  ghost predicate IsReportedRightly(clones: map<Pair, real>, common: nat, windows: map<Id, nat>, threshold: real, p: Pair) {
    && (p in clones <==>
          && p.a.rank < p.b.rank && common > 0 && p.a in windows && p.b in windows
          && IsSimilarEnough(Overlap(common, windows[p.a] + windows[p.b]), threshold))
    && (p in clones ==> IsSimilarity(clones[p], Overlap(common, windows[p.a] + windows[p.b])))
  }

  ghost predicate IsCloneReport(clones: map<Pair, real>, digest: Digest, funcs: seq<Func>, k: nat, threshold: real) {
    forall p: Pair ::
      IsReportedRightly(clones, |CommonHashes(digest, funcs, k, p.a, p.b)|, WindowsOf(funcs, |funcs|, k), threshold, p)
  }

  lemma SimilarityPerWindow(common: nat, windowsA: nat, windowsB: nat, threshold: real)
    requires windowsA + windowsB > 0
    ensures IsSimilarity(Similarity(common, windowsA, windowsB), Overlap(common, windowsA + windowsB))
    ensures Similarity(common, windowsA, windowsB) >= threshold <==>
      IsSimilarEnough(Overlap(common, windowsA + windowsB), threshold)
  {
    QuotientIsAtLeast((2 * common) as real, (windowsA + windowsB) as real, threshold);
  }

  lemma QuotientIsAtLeast(x: real, y: real, threshold: real)
    requires y > 0.0
    ensures x / y * y == x
    ensures x / y >= threshold <==> x >= threshold * y
  {
    var q := x / y;
    assert q * y == x;
    if q >= threshold { assert (q - threshold) * y >= 0.0; }
    if q < threshold { assert (threshold - q) * y > 0.0; }
  }

  /** Fingerprints, counts and thresholds: the report equals comparing every pair of functions directly. */
  method RollingHashClones(digest: Digest, funcs: seq<Func>, k: nat, threshold: real) returns (clones: map<Pair, real>)
    requires k >= 1
    ensures IsCloneReport(clones, digest, funcs, k, threshold)
  {
    var index, windows := BuildIndex(digest, funcs, k);
    var shared := CountShared(index);
    SharedCountsCommon(shared, index, digest, funcs, k);
    clones := map p | p in shared && Similarity(shared[p], windows[p.a], windows[p.b]) >= threshold ::
      Similarity(shared[p], windows[p.a], windows[p.b]);
    forall p: Pair
      ensures IsReportedRightly(clones, |CommonHashes(digest, funcs, k, p.a, p.b)|, windows, threshold, p)
    {
      if p in shared { SimilarityPerWindow(shared[p], windows[p.a], windows[p.b], threshold); }
    }
  }

  lemma SharedCountsCommon(shared: map<Pair, nat>, index: map<Print, set<Id>>, digest: Digest, funcs: seq<Func>, k: nat)
    requires Inverts(index, digest, funcs, |funcs|, k) && CountsCommon(shared, index, index.Keys)
    ensures forall p :: p in shared <==> p.a.rank < p.b.rank && CommonHashes(digest, funcs, k, p.a, p.b) != {}
    ensures forall p | p in shared ::
      && shared[p] == |CommonHashes(digest, funcs, k, p.a, p.b)|
      && p.a in WindowsOf(funcs, |funcs|, k) && p.b in WindowsOf(funcs, |funcs|, k)
      && WindowsOf(funcs, |funcs|, k)[p.a] + WindowsOf(funcs, |funcs|, k)[p.b] > 0
  {
    forall p
      ensures p in shared <==> p.a.rank < p.b.rank && CommonHashes(digest, funcs, k, p.a, p.b) != {}
      ensures p in shared ==>
        && shared[p] == |CommonHashes(digest, funcs, k, p.a, p.b)|
        && p.a in WindowsOf(funcs, |funcs|, k) && p.b in WindowsOf(funcs, |funcs|, k)
        && WindowsOf(funcs, |funcs|, k)[p.a] + WindowsOf(funcs, |funcs|, k)[p.b] > 0
    {
      CommonIsIntersection(index, digest, funcs, k, p.a, p.b);
      assert Get(shared, p) == if p.a.rank < p.b.rank then |CommonIn(index, index.Keys, p.a, p.b)| else 0;
      HashedKeysAreCounted(digest, funcs, |funcs|, k, p.a);
      HashedKeysAreCounted(digest, funcs, |funcs|, k, p.b);
    }
  }

  // ---------------------------------------------------------------- against the token text itself

  /** A window of tokens as a set element. */
  datatype Window = Window(tokens: seq<Token>)

  ghost function WindowAt(tokens: seq<Token>, k: nat, i: nat): Window
    requires i < WindowCount(|tokens|, k)
  {
    Window(tokens[i..i + k])
  }

  ghost function Windows(f: Func, k: nat): set<Window> {
    set i: nat | i < WindowCount(|f.tokens|, k) :: WindowAt(f.tokens, k, i)
  }

  ghost function PrintOf(digest: Digest, w: Window): Print {
    Print(Hash(TokenValues(digest, w.tokens)))
  }

  /** No window of `f` shares its hash with a different window of `g`. */
  ghost predicate CollisionFree(digest: Digest, f: Func, g: Func, k: nat) {
    forall v, w | v in Windows(f, k) && w in Windows(g, k) && PrintOf(digest, v) == PrintOf(digest, w) :: v == w
  }

  lemma {:induction false} ImageSize(digest: Digest, windows: set<Window>, prints: set<Print>)
    requires forall v, w | v in windows && w in windows && PrintOf(digest, v) == PrintOf(digest, w) :: v == w
    requires forall v | v in windows :: PrintOf(digest, v) in prints
    requires forall h | h in prints :: exists v :: v in windows && PrintOf(digest, v) == h
    ensures |prints| == |windows|
  {
    if windows == {} {
      assert prints == {};
    } else {
      var v :| v in windows;
      ImageSize(digest, windows - {v}, prints - {PrintOf(digest, v)});
    }
  }

  lemma PrintOfWindow(digest: Digest, f: Func, k: nat, i: nat)
    requires i < WindowCount(|f.tokens|, k)
    ensures PrintOf(digest, WindowAt(f.tokens, k, i)) == PrintAt(TokenValues(digest, f.tokens), k, i)
  {
    assert TokenValues(digest, f.tokens[i..i + k]) == TokenValues(digest, f.tokens)[i..i + k];
  }

  lemma PrintsAreOfWindows(digest: Digest, f: Func, k: nat, h: Print)
    ensures h in Fingerprint(digest, f, k) <==> exists w :: w in Windows(f, k) && PrintOf(digest, w) == h
  {
    if h in Fingerprint(digest, f, k) {
      var i: nat :| i < WindowCount(|f.tokens|, k) && PrintAt(TokenValues(digest, f.tokens), k, i) == h;
      PrintOfWindow(digest, f, k, i);
      assert WindowAt(f.tokens, k, i) in Windows(f, k);
    }
    if w :| w in Windows(f, k) && PrintOf(digest, w) == h {
      var i: nat :| i < WindowCount(|f.tokens|, k) && WindowAt(f.tokens, k, i) == w;
      PrintOfWindow(digest, f, k, i);
      assert PrintAt(TokenValues(digest, f.tokens), k, i) == h;
    }
  }

  /** Without collisions the shared count is the number of distinct token windows the two functions have in common. */
  lemma SharedCountIsCommonWindows(digest: Digest, f: Func, g: Func, k: nat)
    requires CollisionFree(digest, f, g, k)
    ensures |Fingerprint(digest, f, k) * Fingerprint(digest, g, k)| == |Windows(f, k) * Windows(g, k)|
  {
    var windows := Windows(f, k) * Windows(g, k);
    var prints := Fingerprint(digest, f, k) * Fingerprint(digest, g, k);
    forall v | v in windows ensures PrintOf(digest, v) in prints {
      PrintsAreOfWindows(digest, f, k, PrintOf(digest, v));
      PrintsAreOfWindows(digest, g, k, PrintOf(digest, v));
    }
    forall h | h in prints ensures exists v :: v in windows && PrintOf(digest, v) == h {
      PrintsAreOfWindows(digest, f, k, h);
      PrintsAreOfWindows(digest, g, k, h);
      var v :| v in Windows(f, k) && PrintOf(digest, v) == h;
      var w :| w in Windows(g, k) && PrintOf(digest, w) == h;
      assert v == w;
    }
    ImageSize(digest, windows, prints);
  }

  /** With one function per key, a key's hashes are those of its function. */
  lemma {:induction false} HashesAreOfTheFunction(digest: Digest, funcs: seq<Func>, n: nat, k: nat, i: nat)
    requires i < n <= |funcs| && DistinctKeys(funcs)
    ensures HashesOf(digest, funcs, n, k, funcs[i].key) == Fingerprint(digest, funcs[i], k)
  {
    if i < n - 1 {
      HashesAreOfTheFunction(digest, funcs, n - 1, k, i);
    } else {
      HashesFitWindows(digest, funcs, n - 1, k, funcs[i].key);
    }
  }

  // ---------------------------------------------------------------- identical functions

  /** With one function per key, a key's window count is that of its function, if that is long enough. */
  lemma {:induction false} WindowsAreOfTheFunction(funcs: seq<Func>, n: nat, k: nat, i: nat)
    requires i < n <= |funcs| && DistinctKeys(funcs)
    ensures funcs[i].key in WindowsOf(funcs, n, k) <==> |funcs[i].tokens| >= k
    ensures |funcs[i].tokens| >= k ==> WindowsOf(funcs, n, k)[funcs[i].key] == |funcs[i].tokens| - k + 1
  {
    if i < n - 1 {
      WindowsAreOfTheFunction(funcs, n - 1, k, i);
    } else {
      NotCountedBefore(funcs, n - 1, k, funcs[i].key);
    }
  }

  /** No two windows of the function have the same hash. */
  ghost predicate NoRepeats(vals: seq<int>, k: nat, m: nat)
    requires m <= WindowCount(|vals|, k)
  {
    forall i, j | 0 <= i < j < m :: PrintAt(vals, k, i) != PrintAt(vals, k, j)
  }

  lemma {:induction false} AsManyHashesAsWindowsIff(vals: seq<int>, k: nat, m: nat)
    requires m <= WindowCount(|vals|, k)
    ensures |WindowHashes(vals, k, m)| == m <==> NoRepeats(vals, k, m)
  {
    if m == 0 {
      assert WindowHashes(vals, k, 0) == {};
    } else {
      var n := m - 1;
      AsManyHashesAsWindowsIff(vals, k, n);
      FewerHashesThanWindows(vals, k, n);
      HashesGrow(vals, k, n);
      RepeatIsKnown(vals, k, n);
    }
  }

  lemma RepeatIsKnown(vals: seq<int>, k: nat, m: nat)
    requires m < WindowCount(|vals|, k)
    ensures NoRepeats(vals, k, m + 1) <==> NoRepeats(vals, k, m) && PrintAt(vals, k, m) !in WindowHashes(vals, k, m)
  {
    var last, front := PrintAt(vals, k, m), WindowHashes(vals, k, m);
    if last in front {
      var i: nat :| i < m && PrintAt(vals, k, i) == last;
    } else {
      forall i | 0 <= i < m ensures PrintAt(vals, k, i) != last {
        assert PrintAt(vals, k, i) in front;
      }
    }
  }

  /** The function has no repeated window hash. */
  ghost predicate HasNoRepeats(digest: Digest, f: Func, k: nat) {
    NoRepeats(TokenValues(digest, f.tokens), k, WindowCount(|f.tokens|, k))
  }

  lemma FullOverlapIff<T>(a: set<T>, b: set<T>, m: nat, n: nat)
    requires |a| <= m && |b| <= n
    ensures 2 * |a * b| == m + n <==> a == b && |a| == m && |b| == n
  {
    SizeOfPart(a * b, a);
    SizeOfPart(a * b, b);
    if 2 * |a * b| == m + n {
      assert a * b == a && a * b == b;
    }
    if a == b { assert a * b == a; }
  }

  lemma {:induction false} SizeOfPart<T>(a: set<T>, b: set<T>)
    requires a <= b
    ensures |a| <= |b| && (|a| == |b| ==> a == b)
  {
    assert b == a + (b - a);
    assert |b| == |a| + |b - a|;
  }

  /**
   A reported similarity is 1 exactly if the two functions have the same window
   hashes and neither has one twice.
   */
  lemma PerfectIffSameHashes(clones: map<Pair, real>, digest: Digest, funcs: seq<Func>, k: nat, threshold: real, i: nat, j: nat)
    requires DistinctKeys(funcs) && IsCloneReport(clones, digest, funcs, k, threshold)
    requires i < |funcs| && j < |funcs| && Pair(funcs[i].key, funcs[j].key) in clones
    ensures clones[Pair(funcs[i].key, funcs[j].key)] == 1.0 <==>
      && Fingerprint(digest, funcs[i], k) == Fingerprint(digest, funcs[j], k)
      && HasNoRepeats(digest, funcs[i], k) && HasNoRepeats(digest, funcs[j], k)
  {
    var f, g := funcs[i], funcs[j];
    KeyFacts(digest, funcs, k, i);
    KeyFacts(digest, funcs, k, j);
    var q, overlap := MeasureOf(clones, digest, funcs, k, threshold, i, j);
    OneIffFullOverlap(q, overlap, Fingerprint(digest, f, k), Fingerprint(digest, g, k),
                      WindowCount(|f.tokens|, k), WindowCount(|g.tokens|, k));
  }

  lemma MeasureOf(clones: map<Pair, real>, digest: Digest, funcs: seq<Func>, k: nat, threshold: real, i: nat, j: nat)
    returns (q: real, overlap: Overlap)
    requires DistinctKeys(funcs) && IsCloneReport(clones, digest, funcs, k, threshold)
    requires i < |funcs| && j < |funcs| && Pair(funcs[i].key, funcs[j].key) in clones
    ensures q == clones[Pair(funcs[i].key, funcs[j].key)] && IsSimilarity(q, overlap)
    ensures WindowCount(|funcs[i].tokens|, k) > 0 && WindowCount(|funcs[j].tokens|, k) > 0
    ensures overlap.common == |Fingerprint(digest, funcs[i], k) * Fingerprint(digest, funcs[j], k)|
    ensures overlap.windows == WindowCount(|funcs[i].tokens|, k) + WindowCount(|funcs[j].tokens|, k)
  {
    KeyFacts(digest, funcs, k, i);
    KeyFacts(digest, funcs, k, j);
    var p, windows := Pair(funcs[i].key, funcs[j].key), WindowsOf(funcs, |funcs|, k);
    var common := |CommonHashes(digest, funcs, k, p.a, p.b)|;
    assert IsReportedRightly(clones, common, windows, threshold, p);
    q, overlap := ReportedMeasure(clones, common, windows, threshold, p);
  }

  lemma ReportedMeasure(clones: map<Pair, real>, common: nat, windows: map<Id, nat>, threshold: real, p: Pair)
    returns (q: real, overlap: Overlap)
    requires p in clones && IsReportedRightly(clones, common, windows, threshold, p)
    ensures p.a in windows && p.b in windows && common > 0
    ensures q == clones[p] && overlap == Overlap(common, windows[p.a] + windows[p.b]) && IsSimilarity(q, overlap)
  {
    q, overlap := clones[p], Overlap(common, windows[p.a] + windows[p.b]);
  }

  lemma OneIffFullOverlap<T>(q: real, overlap: Overlap, a: set<T>, b: set<T>, m: nat, n: nat)
    requires IsSimilarity(q, overlap) && overlap.common == |a * b| && overlap.windows == m + n
    requires |a| <= m && |b| <= n && m + n > 0
    ensures q == 1.0 <==> a == b && |a| == m && |b| == n
  {
    UnitIff(q, overlap);
    FullOverlapIff(a, b, m, n);
  }

  lemma UnitFactorIff(q: real, v: real)
    requires v > 0.0
    ensures q == 1.0 <==> Times(q, v) == v
  {
    if q > 1.0 { PositiveProduct(q - 1.0, v); }
    if q < 1.0 { PositiveProduct(1.0 - q, v); }
  }

  lemma UnitIff(q: real, overlap: Overlap)
    requires overlap.windows > 0 && IsSimilarity(q, overlap)
    ensures q == 1.0 <==> 2 * overlap.common == overlap.windows
  {
    UnitFactorIff(q, overlap.windows as real);
  }

  /** What is recorded for a function: its hashes, its windows, and that repeats show in the counts. */
  lemma KeyFacts(digest: Digest, funcs: seq<Func>, k: nat, i: nat)
    requires DistinctKeys(funcs) && i < |funcs|
    ensures var f, windows := funcs[i], WindowsOf(funcs, |funcs|, k);
      && HashesOf(digest, funcs, |funcs|, k, f.key) == Fingerprint(digest, f, k)
      && (f.key in windows <==> |f.tokens| >= k)
      && (|f.tokens| >= k ==> windows[f.key] == WindowCount(|f.tokens|, k) > 0)
      && |Fingerprint(digest, f, k)| <= WindowCount(|f.tokens|, k)
      && (|Fingerprint(digest, f, k)| == WindowCount(|f.tokens|, k) <==> HasNoRepeats(digest, f, k))
  {
    var f := funcs[i];
    HashesAreOfTheFunction(digest, funcs, |funcs|, k, i);
    WindowsAreOfTheFunction(funcs, |funcs|, k, i);
    FewerHashesThanWindows(TokenValues(digest, f.tokens), k, WindowCount(|f.tokens|, k));
    AsManyHashesAsWindowsIff(TokenValues(digest, f.tokens), k, WindowCount(|f.tokens|, k));
  }

  lemma FullOverlapIsEnough(m: nat, threshold: real)
    requires threshold <= 1.0
    ensures IsSimilarEnough(Overlap(m, m + m), threshold)
  {
    assert (1.0 - threshold) * (m + m) as real >= 0.0;
  }

  /** Two functions of the same tokens, at least `k` of them and without repeated windows, are reported as identical. */
  lemma IdenticalFunctionsAreReported(clones: map<Pair, real>, digest: Digest, funcs: seq<Func>, k: nat, threshold: real,
                                      i: nat, j: nat)
    requires DistinctKeys(funcs) && IsCloneReport(clones, digest, funcs, k, threshold) && threshold <= 1.0
    requires i < |funcs| && j < |funcs| && funcs[i].key.rank < funcs[j].key.rank
    requires funcs[i].tokens == funcs[j].tokens && |funcs[i].tokens| >= k && HasNoRepeats(digest, funcs[i], k)
    ensures Pair(funcs[i].key, funcs[j].key) in clones && clones[Pair(funcs[i].key, funcs[j].key)] == 1.0
  {
    var f, g := funcs[i], funcs[j];
    KeyFacts(digest, funcs, k, i);
    KeyFacts(digest, funcs, k, j);
    var m := WindowCount(|f.tokens|, k);
    var common := CommonHashes(digest, funcs, k, f.key, g.key);
    assert common == Fingerprint(digest, f, k) && |common| == m;
    FullOverlapIsEnough(m, threshold);
    var p := Pair(f.key, g.key);
    assert IsReportedRightly(clones, |CommonHashes(digest, funcs, k, p.a, p.b)|, WindowsOf(funcs, |funcs|, k), threshold, p);
    PerfectIffSameHashes(clones, digest, funcs, k, threshold, i, j);
  }
}
