/**
  The per-creator statistics `loadLeaderboard` in leaderboard.js builds: one
  pass over the listed markets, opening an entry for a creator the first
  time one of their markets is seen and updating it for every market.
  Entries come out in order of first appearance: the table is keyed by
  address text, which is never an array index, so `Object.values` keeps
  insertion order.
  Volumes are kept in raw token units (pool amounts as stored). The wall
  clock is the parameter `now`, in whole seconds.
 */
module Leaderboard {
  import opened Bytes
  import opened MarketAccount
  import opened Catalog
  import opened Pricing
  import Seqs

  /** Seven days in seconds. */
  const Week: int := 604800

  /** Thirty days in seconds. */
  const Month: int := 2592000

  /** What an entry remembers of each of its markets. */
  datatype Summary = Summary(volume: nat, status: Byte, createdAt: U64)

  /** One creator's entry. */
  datatype CreatorStats = CreatorStats(
    address: Key,
    marketsCreated: nat,
    totalVolume: nat,
    resolvedMarkets: nat,
    winningMarkets: nat,
    markets: seq<Summary>,
    marketsThisWeek: nat,
    marketsThisMonth: nat,
    volumeThisWeek: nat,
    volumeThisMonth: nat)

  function Volume(m: Market): nat
  {
    m.yesPool + m.noPool
  }

  function Summarize(m: Market): Summary
  {
    Summary(Volume(m), m.status, m.createdAt)
  }

  function MarketOf(e: Listed): Market
  {
    e.market
  }

  function AddressOf(s: CreatorStats): Key
  {
    s.address
  }

  /** The entry opened for a creator seen for the first time. */
  function Fresh(c: Key): CreatorStats
  {
    CreatorStats(c, 0, 0, 0, 0, [], 0, 0, 0, 0)
  }

  /** Adds one market to an entry, as the body of the aggregation loop does. */
  function Record(s: CreatorStats, m: Market, now: int): CreatorStats
  {
    var v := Volume(m);
    var resolved := m.status != 0;
    var week := m.createdAt >= now - Week;
    var month := m.createdAt >= now - Month;
    s.(marketsCreated := s.marketsCreated + 1,
       totalVolume := s.totalVolume + v,
       markets := s.markets + [Summarize(m)],
       resolvedMarkets := s.resolvedMarkets + (if resolved then 1 else 0),
       winningMarkets := s.winningMarkets + (if resolved && IsWin(m.status, m.yesPool, m.noPool) then 1 else 0),
       marketsThisWeek := s.marketsThisWeek + (if week then 1 else 0),
       volumeThisWeek := s.volumeThisWeek + (if week then v else 0),
       marketsThisMonth := s.marketsThisMonth + (if month then 1 else 0),
       volumeThisMonth := s.volumeThisMonth + (if month then v else 0))
  }

  /**
    Recording a market keeps the entry's address, lists the market last and
    keeps a consistent entry consistent.
   */
  lemma RecordKeepsConsistent(s: CreatorStats, m: Market, now: int)
    ensures Record(s, m, now).address == s.address
    ensures Record(s, m, now).markets == s.markets + [Summarize(m)]
    ensures Consistent(s) ==> Consistent(Record(s, m, now))
  {
  }

  /** Where the entry for `c` sits, or the table's length when there is none. */
  function IndexOf(table: seq<CreatorStats>, c: Key): (i: nat)
    ensures i <= |table|
    ensures i < |table| ==> table[i].address == c
    ensures forall k :: 0 <= k < i ==> table[k].address != c
  {
    if table == [] then 0
    else if table[0].address == c then 0
    else
      var i := 1 + IndexOf(table[1..], c);
      assert forall k :: 1 <= k < i ==> table[k] == table[1..][k - 1];
      i
  }

  /** The aggregation loop over the markets in query order. */
  function Aggregate(ms: seq<Market>, now: int): (r: seq<CreatorStats>)
    ensures Tabulates(r, ms, now)
  {
    if ms == [] then []
    else
      var table := Aggregate(ms[..|ms| - 1], now);
      Step(ms, table, now);
      Update(table, ms[|ms| - 1], now)
  }

  /** One iteration: record `m` into its creator's entry, opening it at the end if there is none. */
  function Update(table: seq<CreatorStats>, m: Market, now: int): seq<CreatorStats>
  {
    var i := IndexOf(table, m.creator);
    if i == |table| then table + [Record(Fresh(m.creator), m, now)]
    else table[i := Record(table[i], m, now)]
  }

  /** One iteration keeps the table in agreement with the reference definition. */
  lemma Step(ms: seq<Market>, table: seq<CreatorStats>, now: int)
    requires ms != [] && Tabulates(table, ms[..|ms| - 1], now)
    ensures Tabulates(Update(table, ms[|ms| - 1], now), ms, now)
  {
    var init := ms[..|ms| - 1];
    var m := ms[|ms| - 1];
    var i := IndexOf(table, m.creator);
    if i == |table| {
      AppendEntry(init, m, table, now);
    } else {
      UpdateEntry(init, m, table, i, now);
    }
    LastSplit(ms);
  }

  /** A non-empty sequence is its front followed by its last element. */
  lemma LastSplit(ms: seq<Market>)
    requires ms != []
    ensures ms[..|ms| - 1] + [ms[|ms| - 1]] == ms
  {
  }

  /** The table agrees with the reference definition for the markets `ms`. */
  predicate Tabulates(table: seq<CreatorStats>, ms: seq<Market>, now: int)
  {
    Keyed(table, ms) && Agrees(table, ms, now)
  }

  /** The table has one entry per creator, in order of first appearance. */
  predicate Keyed(table: seq<CreatorStats>, ms: seq<Market>)
  {
    Seqs.Map(table, AddressOf) == Creators(ms)
  }

  /** Every entry holds what the reference definition gives for its address. */
  predicate Agrees(table: seq<CreatorStats>, ms: seq<Market>, now: int)
  {
    forall i :: 0 <= i < |table| ==> table[i] == StatsOf(ms, table[i].address, now)
  }

  /** No two entries share an address. */
  lemma KeyedDistinct(table: seq<CreatorStats>, ms: seq<Market>)
    requires Keyed(table, ms)
    ensures forall i, j :: 0 <= i < j < |table| ==> table[i].address != table[j].address
  {
    forall i, j | 0 <= i < j < |table|
      ensures table[i].address != table[j].address
    {
      assert Seqs.Map(table, AddressOf)[i] == table[i].address;
      assert Seqs.Map(table, AddressOf)[j] == table[j].address;
    }
  }

  /** A creator without an entry has no markets yet. */
  lemma MissingIsNew(table: seq<CreatorStats>, ms: seq<Market>, c: Key)
    requires Keyed(table, ms)
    requires IndexOf(table, c) == |table|
    ensures c !in Creators(ms)
  {
  }

  /** A market by a creator without an entry opens one at the end. */
  lemma AppendEntry(ms: seq<Market>, m: Market, table: seq<CreatorStats>, now: int)
    requires Tabulates(table, ms, now)
    requires IndexOf(table, m.creator) == |table|
    ensures Tabulates(table + [Record(Fresh(m.creator), m, now)], ms + [m], now)
  {
    MissingIsNew(table, ms, m.creator);
    AppendKeyed(ms, m, table, Record(Fresh(m.creator), m, now));
    AppendAgrees(ms, m, table, now);
  }

  lemma AppendKeyed(ms: seq<Market>, m: Market, table: seq<CreatorStats>, e: CreatorStats)
    requires Keyed(table, ms)
    requires m.creator !in Creators(ms) && e.address == m.creator
    ensures Keyed(table + [e], ms + [m])
  {
    assert (ms + [m])[..|ms|] == ms;
    assert Creators(ms + [m]) == Creators(ms) + [m.creator];
  }

  lemma AppendAgrees(ms: seq<Market>, m: Market, table: seq<CreatorStats>, now: int)
    requires Agrees(table, ms, now)
    requires m.creator !in Creators(ms)
    requires forall k :: 0 <= k < |table| ==> table[k].address != m.creator
    ensures Agrees(table + [Record(Fresh(m.creator), m, now)], ms + [m], now)
  {
    var r := table + [Record(Fresh(m.creator), m, now)];
    NotACreator(ms, m.creator, now);
    StepOwn(ms, m, now);
    forall k | 0 <= k < |r|
      ensures r[k] == StatsOf(ms + [m], r[k].address, now)
    {
      if k < |table| {
        StepOther(ms, m, table[k].address, now);
      }
    }
  }

  /** A market by a creator with an entry updates that entry in place. */
  lemma UpdateEntry(ms: seq<Market>, m: Market, table: seq<CreatorStats>, i: nat, now: int)
    requires Tabulates(table, ms, now)
    requires i == IndexOf(table, m.creator) < |table|
    ensures Tabulates(table[i := Record(table[i], m, now)], ms + [m], now)
  {
    UpdateKeyed(ms, m, table, i, Record(table[i], m, now));
    KeyedDistinct(table, ms);
    UpdateAgrees(ms, m, table, i, now);
  }

  lemma UpdateKeyed(ms: seq<Market>, m: Market, table: seq<CreatorStats>, i: nat, e: CreatorStats)
    requires Keyed(table, ms)
    requires i < |table| && table[i].address == m.creator == e.address
    ensures Keyed(table[i := e], ms + [m])
  {
    assert (ms + [m])[..|ms|] == ms;
    assert m.creator in Creators(ms) by {
      assert Seqs.Map(table, AddressOf)[i] == m.creator;
    }
    assert Creators(ms + [m]) == Creators(ms);
  }

  lemma UpdateAgrees(ms: seq<Market>, m: Market, table: seq<CreatorStats>, i: nat, now: int)
    requires Agrees(table, ms, now)
    requires i < |table| && table[i].address == m.creator
    requires forall k :: 0 <= k < |table| && k != i ==> table[k].address != m.creator
    ensures Agrees(table[i := Record(table[i], m, now)], ms + [m], now)
  {
    var r := table[i := Record(table[i], m, now)];
    forall k | 0 <= k < |r|
      ensures r[k] == StatsOf(ms + [m], r[k].address, now)
    {
      if k == i {
        assert table[i] == StatsOf(ms, m.creator, now);
        StepOwn(ms, m, now);
      } else {
        assert r[k] == table[k];
        StepOther(ms, m, table[k].address, now);
      }
    }
  }

  /** The distinct creators of `ms` in the order they first appear. */
  function Creators(ms: seq<Market>): (r: seq<Key>)
    ensures forall c :: c in r <==> exists m :: m in ms && m.creator == c
    ensures forall i, j :: 0 <= i < j < |r| ==> r[i] != r[j]
  {
    if ms == [] then []
    else
      var init := ms[..|ms| - 1];
      var m := ms[|ms| - 1];
      assert ms == init + [m];
      var r := Creators(init);
      if m.creator in r then r else r + [m.creator]
  }

  /** The markets of `ms` created by `c`, in order. */
  function Mine(ms: seq<Market>, c: Key): (r: seq<Market>)
    ensures |r| <= |ms|
    ensures forall m :: m in r <==> m in ms && m.creator == c
  {
    if ms == [] then []
    else
      var init := ms[..|ms| - 1];
      var m := ms[|ms| - 1];
      assert ms == init + [m];
      Mine(init, c) + (if m.creator == c then [m] else [])
  }

  /** How many of `ms` are resolved (status other than 0). */
  function CountResolved(ms: seq<Market>): (n: nat)
    ensures n <= |ms|
  {
    if ms == [] then 0
    else CountResolved(ms[..|ms| - 1]) + (if ms[|ms| - 1].status != 0 then 1 else 0)
  }

  /** How many of `ms` are won by the leaderboard's win rule. */
  function CountWins(ms: seq<Market>): (n: nat)
    ensures n <= CountResolved(ms)
  {
    if ms == [] then 0
    else
      var m := ms[|ms| - 1];
      CountWins(ms[..|ms| - 1]) + (if IsWin(m.status, m.yesPool, m.noPool) then 1 else 0)
  }

  /** How many of `ms` were created at or after `t`. */
  function CountSince(ms: seq<Market>, t: int): (n: nat)
    ensures n <= |ms|
  {
    if ms == [] then 0
    else CountSince(ms[..|ms| - 1], t) + (if ms[|ms| - 1].createdAt >= t then 1 else 0)
  }

  /** The pooled volume of `ms`. */
  function SumVolume(ms: seq<Market>): nat
  {
    if ms == [] then 0 else SumVolume(ms[..|ms| - 1]) + Volume(ms[|ms| - 1])
  }

  /** The pooled volume of the markets of `ms` created at or after `t`. */
  function SumVolumeSince(ms: seq<Market>, t: int): (v: nat)
    ensures v <= SumVolume(ms)
  {
    if ms == [] then 0
    else
      var m := ms[|ms| - 1];
      SumVolumeSince(ms[..|ms| - 1], t) + (if m.createdAt >= t then Volume(m) else 0)
  }

  /**
    What `c`'s entry should hold, stated over `c`'s own markets: each count
    counts them, each volume adds them up, `markets` lists them in order.
   */
  function StatsOf(ms: seq<Market>, c: Key, now: int): CreatorStats
  {
    StatsFrom(c, Mine(ms, c), now)
  }

  /** The entry for `c` built from `mine`, the markets `c` created. */
  function StatsFrom(c: Key, mine: seq<Market>, now: int): CreatorStats
  {
    CreatorStats(
      c, |mine|, SumVolume(mine), CountResolved(mine), CountWins(mine), Seqs.Map(mine, Summarize),
      CountSince(mine, now - Week), CountSince(mine, now - Month),
      SumVolumeSince(mine, now - Week), SumVolumeSince(mine, now - Month))
  }

  /** One more market of `c` is recorded into the entry built from the earlier ones. */
  lemma StatsFromSnoc(c: Key, mine: seq<Market>, m: Market, now: int)
    ensures StatsFrom(c, mine + [m], now) == Record(StatsFrom(c, mine, now), m, now)
  {
    CountersSnoc(mine, m, now);
    var after := StatsFrom(c, mine + [m], now);
    var recorded := Record(StatsFrom(c, mine, now), m, now);
    assert after.marketsCreated == recorded.marketsCreated && after.totalVolume == recorded.totalVolume;
    assert after.resolvedMarkets == recorded.resolvedMarkets && after.winningMarkets == recorded.winningMarkets;
    assert after.markets == recorded.markets;
    assert after.marketsThisWeek == recorded.marketsThisWeek && after.volumeThisWeek == recorded.volumeThisWeek;
    assert after.marketsThisMonth == recorded.marketsThisMonth && after.volumeThisMonth == recorded.volumeThisMonth;
  }

  /** A creator with no markets has nothing of their own. */
  lemma NotACreator(ms: seq<Market>, c: Key, now: int)
    requires c !in Creators(ms)
    ensures StatsOf(ms, c, now) == Fresh(c)
  {
    assert Mine(ms, c) == [];
  }

  /** A market by `m.creator` is recorded into that creator's entry. */
  lemma StepOwn(ms: seq<Market>, m: Market, now: int)
    ensures StatsOf(ms + [m], m.creator, now) == Record(StatsOf(ms, m.creator, now), m, now)
  {
    MineSnoc(ms, m, m.creator);
    StatsFromSnoc(m.creator, Mine(ms, m.creator), m, now);
  }

  /** Each reference counter over `xs + [m]` is its value over `xs` plus `m`'s share. */
  lemma CountersSnoc(xs: seq<Market>, m: Market, now: int)
    ensures CountResolved(xs + [m]) == CountResolved(xs) + (if m.status != 0 then 1 else 0)
    ensures CountWins(xs + [m]) == CountWins(xs) + (if IsWin(m.status, m.yesPool, m.noPool) then 1 else 0)
    ensures SumVolume(xs + [m]) == SumVolume(xs) + Volume(m)
    ensures CountSince(xs + [m], now - Week) == CountSince(xs, now - Week) + (if m.createdAt >= now - Week then 1 else 0)
    ensures CountSince(xs + [m], now - Month) == CountSince(xs, now - Month) + (if m.createdAt >= now - Month then 1 else 0)
    ensures SumVolumeSince(xs + [m], now - Week) == SumVolumeSince(xs, now - Week) + (if m.createdAt >= now - Week then Volume(m) else 0)
    ensures SumVolumeSince(xs + [m], now - Month) == SumVolumeSince(xs, now - Month) + (if m.createdAt >= now - Month then Volume(m) else 0)
    ensures Seqs.Map(xs + [m], Summarize) == Seqs.Map(xs, Summarize) + [Summarize(m)]
  {
    assert (xs + [m])[..|xs|] == xs;
  }

  /** A creator's markets among `ms + [m]`: those among `ms`, then `m` if it is theirs. */
  lemma MineSnoc(ms: seq<Market>, m: Market, c: Key)
    ensures Mine(ms + [m], c) == Mine(ms, c) + (if m.creator == c then [m] else [])
  {
    assert (ms + [m])[..|ms|] == ms;
  }

  /** Selecting `c`'s markets from the front: the first market, if `c`'s, leads the rest. */
  lemma {:induction false} MineCons(m: Market, ms: seq<Market>, c: Key)
    ensures Mine([m] + ms, c) == (if m.creator == c then [m] else []) + Mine(ms, c)
  {
    if ms == [] {
      assert [m] + ms == [] + [m];
      MineSnoc([], m, c);
    } else {
      var init, last := ms[..|ms| - 1], ms[|ms| - 1];
      var first, after := if m.creator == c then [m] else [], if last.creator == c then [last] else [];
      assert ms == init + [last];
      assert [m] + ms == ([m] + init) + [last];
      calc {
        Mine([m] + ms, c);
        Mine(([m] + init) + [last], c);
        { MineSnoc([m] + init, last, c); }
        Mine([m] + init, c) + after;
        { MineCons(m, init, c); }
        (first + Mine(init, c)) + after;
        first + (Mine(init, c) + after);
        { MineSnoc(init, last, c); }
        first + Mine(ms, c);
      }
    }
  }

  /** Pooled volume summed from the front: the first market's pools plus the rest's. */
  lemma {:induction false} SumVolumeCons(m: Market, ms: seq<Market>)
    ensures SumVolume([m] + ms) == Volume(m) + SumVolume(ms)
  {
    if ms == [] {
      assert ([m] + ms)[..0] == [];
    } else {
      var init, last := ms[..|ms| - 1], ms[|ms| - 1];
      assert ms == init + [last];
      assert [m] + ms == ([m] + init) + [last];
      SumVolumeCons(m, init);
      CountersSnoc([m] + init, last, 0);
      CountersSnoc(init, last, 0);
    }
  }

  /** A market by someone else leaves `c`'s entry alone. */
  lemma StepOther(ms: seq<Market>, m: Market, c: Key, now: int)
    requires m.creator != c
    ensures StatsOf(ms + [m], c, now) == StatsOf(ms, c, now)
  {
    MineSnoc(ms, m, c);
    assert Mine(ms + [m], c) == Mine(ms, c);
  }

  /** The markets the leaderboard aggregates: the listed ones, in query order. */
  function Markets(accounts: seq<Account>): (ms: seq<Market>)
    ensures |ms| == |ListedMarkets(accounts)|
    ensures forall m :: m in ms ==> HasQuestion(m)
    ensures forall i :: 0 <= i < |ms| ==> ms[i] == ListedMarkets(accounts)[i].market
  {
    Seqs.Map(ListedMarkets(accounts), MarketOf)
  }

  /** A later cutoff counts no more markets than an earlier one. */
  lemma {:induction false} CountSinceAntitone(ms: seq<Market>, later: int, earlier: int)
    requires earlier <= later
    ensures CountSince(ms, later) <= CountSince(ms, earlier)
    ensures SumVolumeSince(ms, later) <= SumVolumeSince(ms, earlier)
  {
    if ms != [] {
      CountSinceAntitone(ms[..|ms| - 1], later, earlier);
    }
  }

  /** The counters of an entry are consistent with one another. */
  predicate Consistent(s: CreatorStats)
  {
    && s.marketsCreated == |s.markets|
    && s.winningMarkets <= s.resolvedMarkets <= s.marketsCreated
    && s.marketsThisWeek <= s.marketsThisMonth <= s.marketsCreated
    && s.volumeThisWeek <= s.volumeThisMonth <= s.totalVolume
  }

  /** Every entry the reference definition gives is consistent. */
  lemma StatsOfConsistent(ms: seq<Market>, c: Key, now: int)
    ensures Consistent(StatsOf(ms, c, now))
  {
    var mine := Mine(ms, c);
    CountSinceAntitone(mine, now - Week, now - Month);
  }

  /**
    The leaderboard's entries: one per creator of a listed market, in order
    of first appearance, each counting exactly that creator's listed markets
    and internally consistent.
   */
  lemma AggregateFacts(accounts: seq<Account>, now: int)
    ensures var table := Aggregate(Markets(accounts), now);
            && |table| == |Creators(Markets(accounts))|
            && Seqs.Map(table, AddressOf) == Creators(Markets(accounts))
            && (forall i, j :: 0 <= i < j < |table| ==> table[i].address != table[j].address)
            && (forall i :: 0 <= i < |table| ==> Consistent(table[i]))
            && (forall i :: 0 <= i < |table| ==>
                  table[i].marketsCreated == |Mine(Markets(accounts), table[i].address)|)
  {
    var ms := Markets(accounts);
    var table := Aggregate(ms, now);
    KeyedDistinct(table, ms);
    assert |Seqs.Map(table, AddressOf)| == |table|;
    forall i | 0 <= i < |table|
      ensures Consistent(table[i])
    {
      StatsOfConsistent(ms, table[i].address, now);
    }
  }

  /** Equal pools and statuses other than 1 and 2 are never wins. */
  lemma WinNeedsResolvedSideAhead(status: nat, yes: nat, no: nat)
    ensures IsWin(status, yes, no) ==> status != 0
    ensures yes == no ==> !IsWin(status, yes, no)
    ensures status != 1 && status != 2 ==> !IsWin(status, yes, no)
  {
  }
}
