/** The stack of `CCoinsViewCache` objects over the coin database, and the plain map it stands for. */
module CoinsStack {
  import opened Coins

  type Txid = nat

  datatype Option<T> = None | Some(value: T)

  /** `CCoinsCacheEntry` with its two flags. */
  datatype Entry = Entry(coins: Coins, isDirty: bool, isFresh: bool)

  /** A database, or a cache over what is below it. */
  datatype Stack = Disk(db: map<Txid, Coins>) | Layer(cache: map<Txid, Entry>, below: Stack)

  /** Absent and pruned are the same thing. */
  function Visible(c: Coins): Option<Coins> {
    if IsPruned(c) then None else Some(c)
  }

  function VisibleOf(o: Option<Coins>): Option<Coins> {
    if o.Some? then Visible(o.value) else None
  }

  /** What a view says of a transaction. */
  function View(s: Stack, t: Txid): Option<Coins> {
    match s
    case Disk(db) => if t in db then Visible(db[t]) else None
    case Layer(cache, below) => if t in cache then Visible(cache[t].coins) else View(below, t)
  }

  ghost predicate SameView(s: Stack, u: Stack) {
    forall t {:trigger View(u, t)} :: View(u, t) == View(s, t)
  }

  // ----- the invariant -----

  /** A cache below has its own entry; a database is always able to answer. */
  predicate Holds(s: Stack, t: Txid) {
    s.Layer? ==> t in s.cache
  }

  /** What the flags of an entry promise about what is below. */
  ghost predicate EntryOk(below: Stack, t: Txid, e: Entry) {
    IsClean(e.coins) &&
    (e.isFresh ==> View(below, t) == None) &&
    (!e.isFresh ==> Holds(below, t)) &&
    (!e.isDirty ==> Visible(e.coins) == View(below, t))
  }

  ghost predicate Inv(s: Stack) {
    match s
    case Disk(db) => forall t {:trigger db[t]} :: t in db ==> IsClean(db[t]) && !IsPruned(db[t])
    case Layer(cache, below) =>
      Inv(below) && forall t {:trigger cache[t]} :: t in cache ==> EntryOk(below, t, cache[t])
  }

  // ----- reading -----

  /** The stack after looking a transaction up. */
  function Fetched(s: Stack, t: Txid): Stack {
    match s
    case Disk(_) => s
    case Layer(cache, below) =>
      if t in cache then s else
        match Found(below, t)
        case None => Layer(cache, Fetched(below, t))
        case Some(c) => Layer(cache[t := Entry(c, false, IsPruned(c))], Fetched(below, t))
  }

  /** What the lookup returns; a pruned record counts as found. */
  function Found(s: Stack, t: Txid): Option<Coins> {
    match s
    case Disk(db) => if t in db then Some(db[t]) else None
    case Layer(cache, below) => if t in cache then Some(cache[t].coins) else Found(below, t)
  }

  lemma {:induction false} FoundView(s: Stack, t: Txid)
    requires Inv(s)
    ensures VisibleOf(Found(s, t)) == View(s, t)
    ensures Found(s, t).Some? ==> IsClean(Found(s, t).value)
  {
    if s.Layer? && t !in s.cache {
      FoundView(s.below, t);
    }
  }

  /** After a lookup that finds something the cache holds it. */
  lemma FetchedHolds(s: Stack, t: Txid)
    ensures Found(s, t).Some? ==> Holds(Fetched(s, t), t)
    ensures forall u :: Holds(s, u) ==> Holds(Fetched(s, t), u)
  {
  }

  /** A lookup changes no view, at any depth. */
  lemma {:induction false} FetchedView(s: Stack, t: Txid, u: Txid)
    requires Inv(s)
    ensures View(Fetched(s, t), u) == View(s, u)
  {
    if s.Layer? && t !in s.cache {
      FetchedView(s.below, t, u);
      FoundView(s.below, t);
    }
  }

  /** What holds above a stack still holds when the stack gains entries and keeps its view. */
  lemma EntriesKept(cache: map<Txid, Entry>, s: Stack, u: Stack)
    requires Inv(u) && SameView(s, u) && forall t :: Holds(s, t) ==> Holds(u, t)
    requires forall t {:trigger cache[t]} :: t in cache ==> EntryOk(s, t, cache[t])
    ensures Inv(Layer(cache, u))
  {
    forall t | t in cache ensures EntryOk(u, t, cache[t]) {
      assert EntryOk(s, t, cache[t]);
      assert View(u, t) == View(s, t);
    }
  }

  lemma {:induction false} FetchedKeeps(s: Stack, t: Txid)
    requires Inv(s)
    ensures Inv(Fetched(s, t)) && SameView(s, Fetched(s, t))
  {
    forall u ensures View(Fetched(s, t), u) == View(s, u) {
      FetchedView(s, t, u);
    }
    if s.Layer? && t !in s.cache {
      FetchedKeeps(s.below, t);
      FetchedHolds(s.below, t);
      var b := Fetched(s.below, t);
      EntriesKept(s.cache, s.below, b);
      FoundView(s.below, t);
      var u := Fetched(s, t);
      forall x | x in u.cache ensures EntryOk(b, x, u.cache[x]) {
        if x in s.cache { assert EntryOk(b, x, s.cache[x]); }
      }
    }
  }

  // ----- modifying -----

  /** The entry `ModifyCoins` hands out. */
  function Handed(s: Stack, t: Txid): Entry
    requires s.Layer?
  {
    if t in s.cache then s.cache[t].(isDirty := true)
    else match Found(s.below, t)
      case None => Entry(Empty, true, true)
      case Some(c) => Entry(c, true, IsPruned(c))
  }

  /** After `ModifyCoins`: the entry is in the cache. */
  function Opened(s: Stack, t: Txid): Stack
    requires s.Layer?
  {
    Layer(s.cache[t := Handed(s, t)], if t in s.cache then s.below else Fetched(s.below, t))
  }

  /** After the modifier is released with record c in its entry. */
  function Released(s: Stack, t: Txid, c: Coins): Stack
    requires s.Layer? && t in s.cache
  {
    if s.cache[t].isFresh && IsPruned(Cleaned(c)) then s.(cache := s.cache - {t})
    else s.(cache := s.cache[t := s.cache[t].(coins := Cleaned(c))])
  }

  function Modified(s: Stack, t: Txid, f: Option<Coins> -> Coins): Stack
    requires s.Layer?
  {
    Released(Opened(s, t), t, f(Visible(Handed(s, t).coins)))
  }

  lemma OpenedKeeps(s: Stack, t: Txid)
    requires Inv(s) && s.Layer?
    ensures Inv(Opened(s, t)) && SameView(s, Opened(s, t)) && Visible(Handed(s, t).coins) == View(s, t)
    ensures t in Opened(s, t).cache && Opened(s, t).cache[t].isDirty
  {
    if t in s.cache {
      assert EntryOk(s.below, t, s.cache[t]);
      var u := Opened(s, t);
      forall x | x in u.cache ensures EntryOk(u.below, x, u.cache[x]) {
        assert EntryOk(s.below, x, s.cache[x]);
      }
    } else {
      FetchedKeeps(s.below, t);
      FetchedHolds(s.below, t);
      FoundView(s.below, t);
      var u := Opened(s, t);
      EntriesKept(s.cache, s.below, u.below);
      forall x | x in u.cache ensures EntryOk(u.below, x, u.cache[x]) {
        if x in s.cache { assert EntryOk(u.below, x, s.cache[x]); }
      }
    }
  }

  lemma ReleasedKeeps(s: Stack, t: Txid, c: Coins)
    requires Inv(s) && s.Layer? && t in s.cache && s.cache[t].isDirty
    ensures Inv(Released(s, t, c))
    ensures View(Released(s, t, c), t) == Visible(Cleaned(c))
    ensures forall x {:trigger View(Released(s, t, c), x)} :: x != t ==> View(Released(s, t, c), x) == View(s, x)
  {
    CleanedFacts(c);
    assert EntryOk(s.below, t, s.cache[t]);
    var u := Released(s, t, c);
    forall x | x in u.cache ensures EntryOk(u.below, x, u.cache[x]) {
      assert EntryOk(s.below, x, s.cache[x]);
    }
  }

  /** A modification changes the view at one transaction, to the new record without trailing
      spent outputs, and nowhere else. */
  lemma ModifiedKeeps(s: Stack, t: Txid, f: Option<Coins> -> Coins)
    requires Inv(s) && s.Layer?
    ensures Inv(Modified(s, t, f)) && Modified(s, t, f).Layer?
    ensures forall x :: View(Modified(s, t, f), x) == if x == t then Visible(Cleaned(f(View(s, t)))) else View(s, x)
    ensures SameView(s.below, Modified(s, t, f).below)
  {
    OpenedKeeps(s, t);
    ReleasedKeeps(Opened(s, t), t, f(View(s, t)));
    forall x ensures View(Modified(s, t, f), x) == if x == t then Visible(Cleaned(f(View(s, t)))) else View(s, x) {
      assert View(Opened(s, t), x) == View(s, x);
    }
    if t !in s.cache { FetchedKeeps(s.below, t); }
  }

  // ----- flushing -----

  /** Writing one entry of a child into a cache. */
  function WriteCache(cache: map<Txid, Entry>, t: Txid, e: Entry): map<Txid, Entry> {
    if !e.isDirty then cache
    else if t !in cache then
      if IsPruned(e.coins) then cache else cache[t := Entry(e.coins, true, true)]
    else if cache[t].isFresh && IsPruned(e.coins) then cache - {t}
    else cache[t := Entry(e.coins, true, cache[t].isFresh)]
  }

  /** Writing one entry into the database. */
  function WriteDb(db: map<Txid, Coins>, t: Txid, e: Entry): map<Txid, Coins> {
    if !e.isDirty then db else if IsPruned(e.coins) then db - {t} else db[t := e.coins]
  }

  function Write(s: Stack, t: Txid, e: Entry): Stack {
    match s
    case Disk(db) => Disk(WriteDb(db, t, e))
    case Layer(cache, below) => Layer(WriteCache(cache, t, e), below)
  }

  /** Entries that may be written to s: the promises of their flags hold. */
  ghost predicate Writable(s: Stack, m: map<Txid, Entry>) {
    forall t {:trigger m[t]} :: t in m ==> EntryOk(s, t, m[t])
  }

  /** The assertion in `BatchWrite`. */
  lemma FreshAssertion(s: Stack, t: Txid, e: Entry)
    requires s.Layer? && EntryOk(s, t, e) && t !in s.cache
    ensures e.isFresh
  {
  }

  lemma WriteView(s: Stack, t: Txid, e: Entry, x: Txid)
    requires Inv(s) && EntryOk(s, t, e)
    ensures View(Write(s, t, e), x) == if x == t then Visible(e.coins) else View(s, x)
  {
    if s.Layer? && t in s.cache { assert EntryOk(s.below, t, s.cache[t]); }
  }

  lemma WriteKeeps(s: Stack, t: Txid, e: Entry)
    requires Inv(s) && EntryOk(s, t, e)
    ensures Inv(Write(s, t, e))
  {
    var u := Write(s, t, e);
    if s.Layer? {
      forall x | x in u.cache ensures EntryOk(u.below, x, u.cache[x]) {
        if x in s.cache { assert EntryOk(s.below, x, s.cache[x]); }
      }
    }
  }

  /** Writing one entry leaves the others writable. */
  lemma WriteRest(s: Stack, t: Txid, e: Entry, m: map<Txid, Entry>)
    requires Inv(s) && EntryOk(s, t, e) && Writable(s, m) && t !in m
    ensures Writable(Write(s, t, e), m)
  {
    forall x | x in m ensures EntryOk(Write(s, t, e), x, m[x]) {
      assert EntryOk(s, x, m[x]);
      WriteView(s, t, e, x);
    }
  }

  /** The view once a whole child map has been written. */
  function Merged(s: Stack, m: map<Txid, Entry>, t: Txid): Option<Coins> {
    if t in m then Visible(m[t].coins) else View(s, t)
  }

  /** One step of `BatchWrite`: what is left to write, over what has been written, looks the same. */
  lemma WriteStep(s: Stack, m: map<Txid, Entry>, t: Txid, u: Stack)
    requires Inv(s) && Writable(s, m) && t in m && u == Write(s, t, m[t])
    ensures Inv(u) && Writable(u, m - {t})
    ensures forall x :: Merged(u, m - {t}, x) == Merged(s, m, x)
  {
    assert EntryOk(s, t, m[t]);
    WriteKeeps(s, t, m[t]);
    assert Writable(s, m - {t}) by {
      forall x | x in m - {t} ensures EntryOk(s, x, (m - {t})[x]) { assert EntryOk(s, x, m[x]); }
    }
    WriteRest(s, t, m[t], m - {t});
    forall x ensures Merged(u, m - {t}, x) == Merged(s, m, x) {
      WriteView(s, t, m[t], x);
    }
  }

  /** A stack over what a flush left below: empty cache, same view. */
  lemma FlushKeeps(s: Stack, b: Stack)
    requires Inv(s) && s.Layer? && Inv(b) && forall x :: View(b, x) == Merged(s.below, s.cache, x)
    ensures Inv(Layer(map[], b)) && SameView(s, Layer(map[], b)) && SameView(s, b)
  {
    forall x ensures View(b, x) == View(s, x) && View(Layer(map[], b), x) == View(s, x) {
      assert View(b, x) == Merged(s.below, s.cache, x);
    }
  }

  // ----- the plain maps a stack stands for -----

  function Lookup(m: map<Txid, Coins>, t: Txid): Option<Coins> {
    if t in m then Some(m[t]) else None
  }

  function Set(m: map<Txid, Coins>, t: Txid, c: Coins): map<Txid, Coins> {
    if IsPruned(c) then m - {t} else m[t := c]
  }

  ghost predicate Agrees(s: Stack, m: map<Txid, Coins>) {
    forall t {:trigger View(s, t)} {:trigger Lookup(m, t)} :: View(s, t) == Lookup(m, t)
  }

  /** Each view of the stack is the plain map of its level, the database first. */
  ghost predicate Matches(s: Stack, ms: seq<map<Txid, Coins>>) {
    ms != [] && Agrees(s, ms[|ms| - 1]) &&
    if s.Layer? then Matches(s.below, ms[..|ms| - 1]) else |ms| == 1
  }

  /** Same views at every depth. */
  ghost predicate DeepSame(s: Stack, u: Stack) {
    SameView(s, u) && (s.Layer? <==> u.Layer?) && (s.Layer? ==> DeepSame(s.below, u.below))
  }

  lemma {:induction false} DeepReflexive(s: Stack)
    ensures DeepSame(s, s)
  {
    if s.Layer? { DeepReflexive(s.below); }
  }

  lemma {:induction false} FetchedDeep(s: Stack, t: Txid)
    requires Inv(s)
    ensures DeepSame(s, Fetched(s, t))
  {
    FetchedKeeps(s, t);
    if s.Layer? {
      if t in s.cache { DeepReflexive(s.below); } else { FetchedDeep(s.below, t); }
    }
  }

  function Layers(s: Stack): nat { if s.Layer? then Layers(s.below) + 1 else 0 }

  /** The stack k levels down. */
  function Lower(s: Stack, k: nat): (r: Stack)
    requires k < Layers(s)
    ensures r.Layer?
  {
    if k == 0 then s else Lower(s.below, k - 1)
  }

  /** A lower stack shows the map of its level. */
  lemma {:induction false} LowerMatches(s: Stack, ms: seq<map<Txid, Coins>>, k: nat)
    requires Inv(s) && Matches(s, ms) && k < Layers(s)
    ensures |ms| == Layers(s) + 1 && Inv(Lower(s, k)) && Agrees(Lower(s, k), ms[|ms| - 1 - k])
    decreases s
  {
    LayersMatch(s, ms);
    if k > 0 { LowerMatches(s.below, ms[..|ms| - 1], k - 1); }
  }

  lemma {:induction false} LayersMatch(s: Stack, ms: seq<map<Txid, Coins>>)
    requires Matches(s, ms)
    ensures |ms| == Layers(s) + 1
  {
    if s.Layer? { LayersMatch(s.below, ms[..|ms| - 1]); }
  }

  /** A lookup in the cache k levels down, past the ones above it. */
  function FetchedBelow(s: Stack, k: nat, t: Txid): Stack {
    if k == 0 || s.Disk? then Fetched(s, t) else Layer(s.cache, FetchedBelow(s.below, k - 1, t))
  }

  /** Such a lookup keeps all flags and views too. */
  lemma {:induction false} FetchedBelowKeeps(s: Stack, k: nat, t: Txid)
    requires Inv(s)
    ensures Inv(FetchedBelow(s, k, t)) && DeepSame(s, FetchedBelow(s, k, t))
    ensures forall x :: Holds(s, x) ==> Holds(FetchedBelow(s, k, t), x)
    decreases k
  {
    if k == 0 || s.Disk? {
      FetchedKeeps(s, t);
      FetchedDeep(s, t);
      FetchedHolds(s, t);
    } else {
      FetchedBelowKeeps(s.below, k - 1, t);
      EntriesKept(s.cache, s.below, FetchedBelow(s.below, k - 1, t));
    }
  }

  lemma {:induction false} MatchesSame(s: Stack, u: Stack, ms: seq<map<Txid, Coins>>)
    requires Matches(s, ms) && DeepSame(s, u)
    ensures Matches(u, ms)
  {
    forall t ensures View(u, t) == Lookup(ms[|ms| - 1], t) {
      assert View(u, t) == View(s, t);
    }
    if s.Layer? { MatchesSame(s.below, u.below, ms[..|ms| - 1]); }
  }

  lemma ModifiedMatches(s: Stack, ms: seq<map<Txid, Coins>>, t: Txid, f: Option<Coins> -> Coins)
    requires Inv(s) && s.Layer? && Matches(s, ms)
    ensures var m := ms[|ms| - 1];
            Inv(Modified(s, t, f)) && Matches(Modified(s, t, f), ms[|ms| - 1 := Set(m, t, Cleaned(f(Lookup(m, t))))])
  {
    ModifiedKeeps(s, t, f);
    var m, u := ms[|ms| - 1], Modified(s, t, f);
    assert View(s, t) == Lookup(m, t);
    var m' := Set(m, t, Cleaned(f(Lookup(m, t))));
    forall x ensures View(u, x) == Lookup(m', x) {
      assert View(s, x) == Lookup(m, x);
    }
    var ms' := ms[|ms| - 1 := m'];
    assert ms'[..|ms'| - 1] == ms[..|ms| - 1];
    if t in s.cache { DeepReflexive(s.below); } else { FetchedDeep(s.below, t); }
    MatchesSame(s.below, u.below, ms[..|ms| - 1]);
  }

  lemma FlushMatches(s: Stack, ms: seq<map<Txid, Coins>>, b: Stack)
    requires Inv(s) && s.Layer? && Matches(s, ms) && Inv(b) && forall x :: View(b, x) == Merged(s.below, s.cache, x)
    requires b.Layer? <==> s.below.Layer?
    requires b.Layer? ==> b.below == s.below.below
    ensures |ms| >= 2 && Inv(Layer(map[], b)) && Matches(Layer(map[], b), ms[|ms| - 2 := ms[|ms| - 1]])
  {
    FlushKeeps(s, b);
    var n := |ms| - 1;
    assert Matches(s.below, ms[..n]);
    var ms' := ms[n - 1 := ms[n]];
    assert Agrees(b, ms[n]) by {
      forall t ensures View(b, t) == Lookup(ms[n], t) { assert View(s, t) == Lookup(ms[n], t); }
    }
    assert Agrees(Layer(map[], b), ms[n]) by {
      forall t ensures View(Layer(map[], b), t) == Lookup(ms[n], t) { assert View(s, t) == Lookup(ms[n], t); }
    }
    assert ms'[..n][n - 1] == ms[n];
    assert ms'[..n][..n - 1] == ms[..n][..n - 1];
  }

  /** A new cache sees what the one below it sees. */
  lemma PushMatches(s: Stack, ms: seq<map<Txid, Coins>>)
    requires Inv(s) && Matches(s, ms)
    ensures Inv(Layer(map[], s)) && Matches(Layer(map[], s), ms + [ms[|ms| - 1]])
  {
    var u := Layer(map[], s);
    forall t ensures View(u, t) == Lookup(ms[|ms| - 1], t) {
      assert View(s, t) == Lookup(ms[|ms| - 1], t);
    }
    assert (ms + [ms[|ms| - 1]])[..|ms|] == ms;
  }

  /** Why a parent must be left alone while a child is live: here the parent drops a record the
      child has read, and the assertion of `BatchWrite` would fail on the child's next flush. */
  lemma ParentTouched(c: Coins, t: Txid)
    requires IsClean(c) && !IsPruned(c)
    ensures var parent := Layer(map[t := Entry(c, true, true)], Disk(map[]));
            var child := Fetched(Layer(map[], parent), t);
            var parent' := Modified(parent, t, _ => Empty);
            var child' := Modified(child.(below := parent'), t, _ => c);
            Inv(child) && t in child'.cache && t !in parent'.cache &&
            child'.cache[t].isDirty && !IsPruned(child'.cache[t].coins) && !child'.cache[t].isFresh
  {
    var parent := Layer(map[t := Entry(c, true, true)], Disk(map[]));
    assert EntryOk(parent.below, t, parent.cache[t]);
    FetchedKeeps(Layer(map[], parent), t);
    CleanedFacts(c);
    CleanedFacts(Empty);
  }

  // ----- plain runs -----

  /** `GetAt` and `HaveAt` read through the cache of a given level, counted from the database, whatever is above. */
  datatype Op = Get(t: Txid) | Have(t: Txid) | GetAt(level: nat, t: Txid) | HaveAt(level: nat, t: Txid)
              | Modify(t: Txid, f: Option<Coins> -> Coins) | Flush | Push | Pop

  datatype Answer = Record(coins: Option<Coins>) | Known(known: bool)

  /** One map per level; only the last is changed, and flushing copies it one level down. */
  function PlainStep(ms: seq<map<Txid, Coins>>, op: Op): (r: seq<map<Txid, Coins>>)
    requires |ms| >= 2
    ensures |r| >= 2
  {
    var n := |ms| - 1;
    match op
    case Get(_) => ms
    case Have(_) => ms
    case GetAt(_, _) => ms
    case HaveAt(_, _) => ms
    case Modify(t, f) => ms[n := Set(ms[n], t, Cleaned(f(Lookup(ms[n], t))))]
    case Flush => ms[n - 1 := ms[n]]
    case Push => ms + [ms[n]]
    case Pop => if |ms| > 2 then ms[..n] else ms
  }

  function PlainAnswers(ms: seq<map<Txid, Coins>>, op: Op): seq<Answer>
    requires |ms| >= 2
  {
    match op
    case Get(t) => [Record(Lookup(ms[|ms| - 1], t))]
    case Have(t) => [Known(t in ms[|ms| - 1])]
    case GetAt(level, t) => if level + 1 < |ms| then [Record(Lookup(ms[level + 1], t))] else []
    case HaveAt(level, t) => if level + 1 < |ms| then [Known(t in ms[level + 1])] else []
    case _ => []
  }

  /** The maps after the first n operations, and everything answered up to there. */
  function PlainMaps(ms: seq<map<Txid, Coins>>, ops: seq<Op>, n: nat): (r: seq<map<Txid, Coins>>)
    requires |ms| >= 2 && n <= |ops|
    ensures |r| >= 2
  {
    if n == 0 then ms else PlainStep(PlainMaps(ms, ops, n - 1), ops[n - 1])
  }

  function PlainRun(ms: seq<map<Txid, Coins>>, ops: seq<Op>, n: nat): seq<Answer>
    requires |ms| >= 2 && n <= |ops|
  {
    if n == 0 then [] else PlainRun(ms, ops, n - 1) + PlainAnswers(PlainMaps(ms, ops, n - 1), ops[n - 1])
  }
}

/** The objects: a database and caches linked to their bases. */
module CoinsView {
  import opened Coins
  import opened CoinsStack

  /** `CCoinsViewDB`. */
  class Database {
    var coins: map<Txid, Coins>

    constructor (coins: map<Txid, Coins>)
      ensures this.coins == coins
    {
      this.coins := coins;
    }

    /** `BatchWrite`: pruned records are erased, the batch takes effect at once. */
    method BatchWrite(m: map<Txid, Entry>)
      requires CoinsStack.Inv(Disk(coins)) && Writable(Disk(coins), m)
      modifies this
      ensures CoinsStack.Inv(Disk(coins)) && forall x :: View(Disk(coins), x) == Merged(Disk(old(coins)), m, x)
    {
      var rest, batch := m, coins;
      while rest != map[]
        invariant coins == old(coins) && CoinsStack.Inv(Disk(batch)) && Writable(Disk(batch), rest)
        invariant forall x :: Merged(Disk(batch), rest, x) == Merged(Disk(coins), m, x)
        decreases |rest|
      {
        NonEmpty(rest);
        var t :| t in rest;
        WriteStep(Disk(batch), rest, t, Disk(WriteDb(batch, t, rest[t])));
        if rest[t].isDirty {
          batch := if IsPruned(rest[t].coins) then batch - {t} else batch[t := rest[t].coins];
        }
        Smaller(rest, t);
        rest := rest - {t};
      }
      ghost var before := coins;
      coins := batch;
      forall x ensures View(Disk(coins), x) == Merged(Disk(before), m, x) {
        assert Merged(Disk(batch), rest, x) == Merged(Disk(before), m, x);
      }
    }
  }

  lemma NonEmpty(m: map<Txid, Entry>)
    requires m != map[]
    ensures exists t :: t in m
  {
  }

  lemma Smaller(m: map<Txid, Entry>, t: Txid)
    requires t in m
    ensures |m - {t}| < |m|
  {
    assert (m - {t}).Keys == m.Keys - {t};
    assert |(m - {t}).Keys| < |m.Keys|;
  }

  datatype Base = OnDisk(db: Database) | OnCache(cache: Cache)

  /** `CCoinsViewCache`. */
  class Cache {
    const base: Base
    ghost const depth: nat
    ghost const chain: set<Cache>
    ghost const root: Database
    var cacheCoins: map<Txid, Entry>
    var hasModifier: bool

    /** The caches below are linked up to the database, each its own object. */
    ghost predicate Linked()
      decreases depth
    {
      match base
      case OnDisk(db) => root == db && chain == {this}
      case OnCache(c) =>
        c.depth < depth && root == c.root && chain == c.chain + {this} && this !in c.chain && c.Linked()
    }

    ghost function Abs(): Stack
      requires Linked()
      reads chain, root
      decreases depth
    {
      Layer(cacheCoins, if base.OnDisk? then Disk(base.db.coins) else base.cache.Abs())
    }

    ghost predicate Quiet()
      reads chain
    {
      forall c :: c in chain ==> !c.hasModifier
    }

    constructor (base: Base)
      requires base.OnCache? ==> base.cache.Linked()
      ensures Linked() && this.base == base && !hasModifier && cacheCoins == map[]
      ensures base.OnCache? ==> chain == base.cache.chain + {this} && root == base.cache.root
      ensures base.OnDisk? ==> chain == {this} && root == base.db
    {
      this.base := base;
      cacheCoins, hasModifier := map[], false;
      match base {
        case OnDisk(db) =>
          depth, chain, root := 0, {this}, db;
        case OnCache(c) =>
          depth, chain, root := c.depth + 1, c.chain + {this}, c.root;
      }
    }

    /** `GetCoins` of the base. */
    method BaseGet(t: Txid) returns (r: Option<Coins>)
      requires Linked()
      modifies (chain - {this})`cacheCoins
      ensures Abs() == Layer(cacheCoins, Fetched(old(Abs()).below, t)) && r == Found(old(Abs()).below, t)
      decreases depth, 0
    {
      match base {
        case OnDisk(db) =>
          r := if t in db.coins then Some(db.coins[t]) else None;
        case OnCache(c) =>
          r := c.GetCoins(t);
      }
    }

    /** `FetchCoins`: the entry is pulled up through every cache on the way. */
    method FetchCoins(t: Txid) returns (found: bool)
      requires Linked()
      modifies chain`cacheCoins
      ensures Abs() == Fetched(old(Abs()), t) && found == Found(old(Abs()), t).Some?
      ensures found ==> t in cacheCoins && cacheCoins[t].coins == Found(old(Abs()), t).value
      decreases depth, 1
    {
      if t in cacheCoins {
        return true;
      }
      var tmp := BaseGet(t);
      if tmp.None? {
        return false;
      }
      cacheCoins := cacheCoins[t := Entry(tmp.value, false, false)];
      if IsPruned(cacheCoins[t].coins) {
        cacheCoins := cacheCoins[t := cacheCoins[t].(isFresh := true)];
      }
      return true;
    }

    /** `GetCoins`. */
    method GetCoins(t: Txid) returns (r: Option<Coins>)
      requires Linked()
      modifies chain`cacheCoins
      ensures Abs() == Fetched(old(Abs()), t) && r == Found(old(Abs()), t)
      decreases depth, 2
    {
      var found := FetchCoins(t);
      r := if found then Some(cacheCoins[t].coins) else None;
    }

    /** `HaveCoins` only tests for outputs being there at all; since records are kept clean it is exact. */
    method HaveCoins(t: Txid) returns (r: bool)
      requires Linked() && CoinsStack.Inv(Abs())
      modifies chain`cacheCoins
      ensures Abs() == Fetched(old(Abs()), t) && (r <==> View(old(Abs()), t).Some?)
    {
      FoundView(Abs(), t);
      var found := FetchCoins(t);
      r := found && |cacheCoins[t].coins.vout| != 0;
      if found { CleanedFacts(cacheCoins[t].coins); }
    }

    /** `GetCoins` of the cache k levels down, with this one and those in between live above it. */
    method GetCoinsBelow(k: nat, t: Txid) returns (r: Option<Coins>)
      requires Linked() && k < Layers(Abs())
      modifies chain`cacheCoins
      ensures Abs() == FetchedBelow(old(Abs()), k, t) && r == Found(old(Lower(Abs(), k)), t)
      decreases depth
    {
      if k == 0 {
        r := GetCoins(t);
      } else {
        r := base.cache.GetCoinsBelow(k - 1, t);
      }
    }

    /** `HaveCoins` of that cache. */
    method HaveCoinsBelow(k: nat, t: Txid) returns (r: bool)
      requires Linked() && CoinsStack.Inv(Abs()) && k < Layers(Abs())
      modifies chain`cacheCoins
      ensures Abs() == FetchedBelow(old(Abs()), k, t) && (r <==> View(old(Lower(Abs(), k)), t).Some?)
      decreases depth
    {
      if k == 0 {
        r := HaveCoins(t);
      } else {
        r := base.cache.HaveCoinsBelow(k - 1, t);
      }
    }

    /** `ModifyCoins`: the entry is handed out for change. */
    method ModifyCoins(t: Txid)
      requires Linked() && !hasModifier
      modifies chain`cacheCoins, `hasModifier
      ensures Abs() == Opened(old(Abs()), t) && hasModifier
    {
      if t !in cacheCoins {
        var got := BaseGet(t);
        if got.None? {
          cacheCoins := cacheCoins[t := Entry(Empty, false, true)];
        } else if IsPruned(got.value) {
          cacheCoins := cacheCoins[t := Entry(got.value, false, true)];
        } else {
          cacheCoins := cacheCoins[t := Entry(got.value, false, false)];
        }
      }
      cacheCoins := cacheCoins[t := cacheCoins[t].(isDirty := true)];
      hasModifier := true;
    }

    /** The modifier's destructor, once the holder has left record c in the entry. */
    method Release(t: Txid, c: Coins)
      requires Linked() && hasModifier && t in cacheCoins
      modifies `cacheCoins, `hasModifier
      ensures !hasModifier && Abs() == Released(old(Abs()), t, c)
    {
      hasModifier := false;
      var cleaned := Cleanup(c);
      cacheCoins := cacheCoins[t := cacheCoins[t].(coins := cleaned)];
      if cacheCoins[t].isFresh && IsPruned(cacheCoins[t].coins) {
        cacheCoins := cacheCoins - {t};
      }
    }

    /** One modification through a modifier; the holder looks at the record only if it is not pruned. */
    method Modify(t: Txid, f: Option<Coins> -> Coins)
      requires Linked() && !hasModifier
      modifies chain`cacheCoins, `hasModifier
      ensures !hasModifier && Abs() == Modified(old(Abs()), t, f)
    {
      ModifyCoins(t);
      Release(t, f(Visible(cacheCoins[t].coins)));
    }

    /** `BatchWrite` from a child: its assertion that an unknown entry is fresh holds. */
    method BatchWrite(m: map<Txid, Entry>)
      requires Linked() && CoinsStack.Inv(Abs()) && Writable(Abs(), m) && !hasModifier
      modifies `cacheCoins
      ensures CoinsStack.Inv(Abs()) && Abs().below == old(Abs()).below
      ensures forall x :: View(Abs(), x) == Merged(old(Abs()), m, x)
    {
      ghost var s := Abs();
      var rest := m;
      while rest != map[]
        invariant CoinsStack.Inv(Abs()) && Writable(Abs(), rest) && Abs().below == s.below
        invariant forall x :: Merged(Abs(), rest, x) == Merged(s, m, x)
        decreases |rest|
      {
        NonEmpty(rest);
        var t :| t in rest;
        WriteStep(Abs(), rest, t, Write(Abs(), t, rest[t]));
        WriteOne(t, rest[t]);
        Smaller(rest, t);
        rest := rest - {t};
      }
    }

    method WriteOne(t: Txid, e: Entry)
      requires Linked() && EntryOk(Abs(), t, e)
      modifies `cacheCoins
      ensures Abs() == Write(old(Abs()), t, e)
    {
      if e.isDirty {
        if t !in cacheCoins {
          if !IsPruned(e.coins) {
            FreshAssertion(Abs(), t, e);
            assert e.isFresh;
            cacheCoins := cacheCoins[t := Entry(e.coins, true, true)];
          }
        } else if cacheCoins[t].isFresh && IsPruned(e.coins) {
          cacheCoins := cacheCoins - {t};
        } else {
          cacheCoins := cacheCoins[t := Entry(e.coins, true, cacheCoins[t].isFresh)];
        }
      }
    }

    /** `Flush`: the base then shows what this cache shows. */
    method Flush()
      requires Linked() && CoinsStack.Inv(Abs()) && Quiet()
      modifies chain`cacheCoins, root
      ensures cacheCoins == map[] && CoinsStack.Inv(Abs()) && SameView(old(Abs()), Abs().below)
      ensures Abs().below.Layer? <==> old(Abs()).below.Layer?
      ensures Abs().below.Layer? ==> Abs().below.below == old(Abs()).below.below
    {
      ghost var s := Abs();
      match base {
        case OnDisk(db) => db.BatchWrite(cacheCoins);
        case OnCache(c) =>
          assert c in chain;
          c.BatchWrite(cacheCoins);
      }
      cacheCoins := map[];
      FlushKeeps(s, Abs().below);
    }
  }

  /** The caches of a stack, bottom first. */
  ghost predicate Stacked(db: Database, caches: seq<Cache>) {
    caches != [] && caches[0].base == OnDisk(db) &&
    (forall i {:trigger caches[i]} :: 0 <= i < |caches| ==> caches[i].Linked() && caches[i].root == db) &&
    (forall i {:trigger caches[i].base} :: 0 < i < |caches| ==> caches[i].base == OnCache(caches[i - 1]))
  }

  ghost predicate Running(db: Database, caches: seq<Cache>, ms: seq<map<Txid, Coins>>)
    reads db, if caches != [] then caches[|caches| - 1].chain else {}
  {
    Stacked(db, caches) && |ms| == |caches| + 1 && caches[|caches| - 1].Quiet() &&
    CoinsStack.Inv(caches[|caches| - 1].Abs()) && Matches(caches[|caches| - 1].Abs(), ms)
  }

  method Read(db: Database, caches: seq<Cache>, t: Txid, ghost ms: seq<map<Txid, Coins>>) returns (r: Option<Coins>)
    requires Running(db, caches, ms)
    modifies caches[|caches| - 1].chain`cacheCoins
    ensures Running(db, caches, ms) && r == Lookup(ms[|ms| - 1], t)
  {
    var top := caches[|caches| - 1];
    ghost var s := top.Abs();
    FetchedKeeps(s, t);
    FetchedDeep(s, t);
    FoundView(s, t);
    MatchesSame(s, Fetched(s, t), ms);
    assert View(s, t) == Lookup(ms[|ms| - 1], t);
    var got := top.GetCoins(t);
    r := if got.Some? && !IsPruned(got.value) then got else None;
  }

  method Test(db: Database, caches: seq<Cache>, t: Txid, ghost ms: seq<map<Txid, Coins>>) returns (r: bool)
    requires Running(db, caches, ms)
    modifies caches[|caches| - 1].chain`cacheCoins
    ensures Running(db, caches, ms) && r == (t in ms[|ms| - 1])
  {
    var top := caches[|caches| - 1];
    ghost var s := top.Abs();
    FetchedKeeps(s, t);
    FetchedDeep(s, t);
    MatchesSame(s, Fetched(s, t), ms);
    assert View(s, t) == Lookup(ms[|ms| - 1], t);
    r := top.HaveCoins(t);
  }

  method ReadAt(db: Database, caches: seq<Cache>, level: nat, t: Txid, ghost ms: seq<map<Txid, Coins>>)
    returns (r: Option<Coins>)
    requires Running(db, caches, ms) && level < |caches|
    modifies caches[|caches| - 1].chain`cacheCoins
    ensures Running(db, caches, ms) && r == Lookup(ms[level + 1], t)
  {
    var top, k := caches[|caches| - 1], |caches| - 1 - level;
    BelowLookup(top.Abs(), ms, k, t);
    var got := top.GetCoinsBelow(k, t);
    r := if got.Some? && !IsPruned(got.value) then got else None;
  }

  method TestAt(db: Database, caches: seq<Cache>, level: nat, t: Txid, ghost ms: seq<map<Txid, Coins>>)
    returns (r: bool)
    requires Running(db, caches, ms) && level < |caches|
    modifies caches[|caches| - 1].chain`cacheCoins
    ensures Running(db, caches, ms) && r == (t in ms[level + 1])
  {
    var top, k := caches[|caches| - 1], |caches| - 1 - level;
    BelowLookup(top.Abs(), ms, k, t);
    r := top.HaveCoinsBelow(k, t);
  }

  /** What a lookup in a lower cache finds, and that the stack still matches. */
  lemma BelowLookup(s: Stack, ms: seq<map<Txid, Coins>>, k: nat, t: Txid)
    requires CoinsStack.Inv(s) && Matches(s, ms) && k + 1 < |ms|
    ensures k < Layers(s) && VisibleOf(Found(Lower(s, k), t)) == View(Lower(s, k), t) == Lookup(ms[|ms| - 1 - k], t)
    ensures CoinsStack.Inv(FetchedBelow(s, k, t)) && Matches(FetchedBelow(s, k, t), ms)
  {
    LayersMatch(s, ms);
    LowerMatches(s, ms, k);
    FoundView(Lower(s, k), t);
    FetchedBelowKeeps(s, k, t);
    MatchesSame(s, FetchedBelow(s, k, t), ms);
  }

  method Change(db: Database, caches: seq<Cache>, t: Txid, f: Option<Coins> -> Coins, ghost ms: seq<map<Txid, Coins>>)
    requires Running(db, caches, ms)
    modifies caches[|caches| - 1].chain
    ensures Running(db, caches, PlainStep(ms, Op.Modify(t, f)))
  {
    var top := caches[|caches| - 1];
    ModifiedMatches(top.Abs(), ms, t, f);
    top.Modify(t, f);
  }

  method FlushTop(db: Database, caches: seq<Cache>, ghost ms: seq<map<Txid, Coins>>)
    requires Running(db, caches, ms)
    modifies caches[|caches| - 1].chain, db
    ensures Running(db, caches, PlainStep(ms, Op.Flush))
  {
    var top := caches[|caches| - 1];
    ghost var s := top.Abs();
    top.Flush();
    ghost var b := top.Abs().below;
    forall x ensures View(b, x) == Merged(s.below, s.cache, x) {
      assert View(b, x) == View(s, x);
    }
    FlushMatches(s, ms, b);
  }

  method PushTop(db: Database, caches: seq<Cache>, ghost ms: seq<map<Txid, Coins>>) returns (r: seq<Cache>)
    requires Running(db, caches, ms)
    ensures Running(db, r, PlainStep(ms, Op.Push)) && r[..|caches|] == caches && |r| == |caches| + 1
    ensures fresh(r[|caches|]) && r[|caches|].chain == caches[|caches| - 1].chain + {r[|caches|]}
  {
    var top := caches[|caches| - 1];
    PushMatches(top.Abs(), ms);
    var c := new Cache(OnCache(top));
    r := caches + [c];
  }

  method PopTop(db: Database, caches: seq<Cache>, ghost ms: seq<map<Txid, Coins>>) returns (r: seq<Cache>)
    requires Running(db, caches, ms)
    ensures Running(db, r, PlainStep(ms, Op.Pop))
    ensures r[|r| - 1].chain <= caches[|caches| - 1].chain
  {
    if |caches| == 1 {
      return caches;
    }
    ghost var top := caches[|caches| - 1];
    assert top.base == OnCache(caches[|caches| - 2]);
    assert top.Abs().below == caches[|caches| - 2].Abs();
    r := caches[..|caches| - 1];
  }

  /** The database of a stack is the map of its lowest level. */
  lemma {:induction false} RootMatches(c: Cache, ms: seq<map<Txid, Coins>>)
    requires c.Linked() && CoinsStack.Inv(c.Abs()) && Matches(c.Abs(), ms)
    ensures c.root.coins == ms[0]
    decreases c.depth
  {
    var n := |ms| - 1;
    if c.base.OnCache? {
      RootMatches(c.base.cache, ms[..n]);
    } else {
      var db := c.root.coins;
      assert Agrees(Disk(db), ms[0]);
      forall t ensures t in db <==> t in ms[0] {
        assert View(Disk(db), t) == Lookup(ms[0], t);
      }
      forall t | t in db ensures db[t] == ms[0][t] {
        assert View(Disk(db), t) == Lookup(ms[0], t);
      }
    }
  }

  method Step(db: Database, caches: seq<Cache>, op: Op, ghost ms: seq<map<Txid, Coins>>)
    returns (r: seq<Cache>, answers: seq<Answer>)
    requires Running(db, caches, ms)
    modifies db, caches[|caches| - 1].chain
    ensures Running(db, r, PlainStep(ms, op)) && answers == PlainAnswers(ms, op)
    ensures fresh(r[|r| - 1].chain - caches[|caches| - 1].chain)
  {
    r, answers := caches, [];
    match op {
      case Get(t) =>
        var c := Read(db, caches, t, ms);
        answers := [Record(c)];
      case Have(t) =>
        var b := Test(db, caches, t, ms);
        answers := [Known(b)];
      case GetAt(level, t) =>
        if level < |caches| {
          var c := ReadAt(db, caches, level, t, ms);
          answers := [Record(c)];
        }
      case HaveAt(level, t) =>
        if level < |caches| {
          var b := TestAt(db, caches, level, t, ms);
          answers := [Known(b)];
        }
      case Modify(t, f) => Change(db, caches, t, f, ms);
      case Flush => FlushTop(db, caches, ms);
      case Push => r := PushTop(db, caches, ms);
      case Pop => r := PopTop(db, caches, ms);
    }
  }

  method Start(disk: map<Txid, Coins>) returns (db: Database, caches: seq<Cache>)
    requires forall t :: t in disk ==> IsClean(disk[t]) && !IsPruned(disk[t])
    ensures Running(db, caches, [disk, disk]) && fresh(db) && fresh(caches[|caches| - 1].chain)
  {
    db := new Database(disk);
    var cache := new Cache(OnDisk(db));
    caches := [cache];
    StartMatches(disk);
  }

  /** Any script of reads, modifications, flushes and cache creations and removals, on real
      cache objects over a database, answers as plain maps do; the database ends up as the
      lowest of them. */
  method RunScript(disk: map<Txid, Coins>, ops: seq<Op>) returns (answers: seq<Answer>, final: map<Txid, Coins>)
    requires forall t :: t in disk ==> IsClean(disk[t]) && !IsPruned(disk[t])
    ensures answers == PlainRun([disk, disk], ops, |ops|)
    ensures final == PlainMaps([disk, disk], ops, |ops|)[0]
  {
    var db, caches := Start(disk);
    answers := [];
    ghost var ms := [disk, disk];
    for n := 0 to |ops|
      invariant Running(db, caches, PlainMaps(ms, ops, n)) && answers == PlainRun(ms, ops, n)
      invariant fresh(db) && fresh(caches[|caches| - 1].chain)
    {
      var more;
      caches, more := Step(db, caches, ops[n], PlainMaps(ms, ops, n));
      answers := answers + more;
    }
    RootMatches(caches[|caches| - 1], PlainMaps(ms, ops, |ops|));
    final := db.coins;
  }

  lemma StartMatches(disk: map<Txid, Coins>)
    requires forall t :: t in disk ==> IsClean(disk[t]) && !IsPruned(disk[t])
    ensures CoinsStack.Inv(Layer(map[], Disk(disk))) && Matches(Layer(map[], Disk(disk)), [disk, disk])
  {
    assert Agrees(Disk(disk), disk);
    forall t ensures View(Layer(map[], Disk(disk)), t) == Lookup(disk, t) {
      assert View(Disk(disk), t) == Lookup(disk, t);
    }
    assert [disk, disk][..1] == [disk];
  }
}
