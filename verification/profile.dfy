/**
  The profile page of profile.js: the connected wallet's own markets, the
  resolved ones among them shown as trades, and the figures derived from
  both. The wallet's address is a parameter; volumes are raw token units.
 */
module Profile {
  import opened Bytes
  import opened MarketAccount
  import opened Catalog
  import opened Pricing
  import opened LeaderboardView
  import Seqs
  import Leaderboard

  /** One of the wallet's markets as the page lists it. */
  datatype UserMarket = UserMarket(
    id: Key, question: seq<Byte>, status: Byte, createdAt: U64, yesPool: U64, noPool: U64)

  /** The side a resolved market came out on. */
  datatype Side = Yes | No

  datatype TradeStatus = Pending | Win | Loss

  /** A resolved market of the wallet, shown as a trade on its whole pool. */
  datatype Trade = Trade(question: seq<Byte>, outcome: Side, status: TradeStatus, amount: nat, createdAt: U64)

  /** The figures the page renders. */
  datatype ProfileData = ProfileData(
    totalMarkets: nat,
    resolvedMarkets: nat,
    totalVolume: nat,
    winningTrades: nat,
    totalTrades: nat,
    winRate: real,
    estimatedPnL: real,
    trades: seq<Trade>)

  function ToUserMarket(e: Listed): UserMarket
  {
    var m := e.market;
    UserMarket(e.id, m.question, m.status, m.createdAt, m.yesPool, m.noPool)
  }

  /**
    The trade a market is shown as: outcome YES exactly for status 1, a win
    by the leaderboard's rule, otherwise a loss once resolved.
   */
  function ToTrade(m: Market): (t: Trade)
    ensures t.outcome == Yes <==> m.status == 1
    ensures t.status == Pending <==> m.status == 0
    ensures t.status == Win <==> IsWin(m.status, m.yesPool, m.noPool)
    ensures t.amount == m.yesPool + m.noPool
  {
    Trade(m.question,
          if m.status == 1 then Yes else No,
          if m.status == 0 then Pending else if IsWin(m.status, m.yesPool, m.noPool) then Win else Loss,
          m.yesPool + m.noPool,
          m.createdAt)
  }

  predicate Owned(e: Listed, wallet: Key)
  {
    e.market.creator == wallet
  }

  /** The wallet's markets among the listed ones, in query order. */
  function UserMarkets(listed: seq<Listed>, wallet: Key): (r: seq<UserMarket>)
    ensures |r| <= |listed|
    ensures forall u :: u in r <==> exists e :: e in listed && Owned(e, wallet) && u == ToUserMarket(e)
  {
    if listed == [] then []
    else
      var rest := UserMarkets(listed[1..], wallet);
      assert forall e :: e in listed[1..] ==> e in listed;
      assert listed == [listed[0]] + listed[1..];
      if Owned(listed[0], wallet) then [ToUserMarket(listed[0])] + rest else rest
  }

  /** The wallet's resolved markets among the listed ones as trades, in query order. */
  function UserTrades(listed: seq<Listed>, wallet: Key): (r: seq<Trade>)
    ensures |r| <= |listed|
    ensures forall t :: t in r ==> t.status != Pending
  {
    if listed == [] then []
    else
      var rest := UserTrades(listed[1..], wallet);
      var m := listed[0].market;
      if m.status != 0 && Owned(listed[0], wallet) then [ToTrade(m)] + rest else rest
  }

  /** The user's markets are the owned listed markets, mapped, in order. */
  lemma {:induction false} UserMarketsInOrder(listed: seq<Listed>, wallet: Key)
    ensures UserMarkets(listed, wallet)
            == Seqs.Map(Seqs.Filter(listed, (e: Listed) => Owned(e, wallet)), ToUserMarket)
  {
    if listed != [] {
      UserMarketsInOrder(listed[1..], wallet);
      assert listed == [listed[0]] + listed[1..];
      OwnedStep(listed[0], listed[1..], wallet);
    }
  }

  /** One listed market in front: its entry, when the wallet created it, then the rest's. */
  lemma OwnedStep(e: Listed, tail: seq<Listed>, wallet: Key)
    ensures Seqs.Map(Seqs.Filter([e] + tail, (x: Listed) => Owned(x, wallet)), ToUserMarket)
            == (if Owned(e, wallet) then [ToUserMarket(e)] else [])
               + Seqs.Map(Seqs.Filter(tail, (x: Listed) => Owned(x, wallet)), ToUserMarket)
  {
    var owned := (x: Listed) => Owned(x, wallet);
    Seqs.FilterCons(e, tail, owned);
    if Owned(e, wallet) {
      Seqs.MapCons(e, Seqs.Filter(tail, owned), ToUserMarket);
    }
  }

  function TradeOf(e: Listed): Trade
  {
    ToTrade(e.market)
  }

  /** A listed market of the wallet that has been resolved. */
  predicate Traded(e: Listed, wallet: Key)
  {
    Owned(e, wallet) && e.market.status != 0
  }

  /** The trades are the wallet's resolved listed markets, each shown by `ToTrade`, in order. */
  lemma {:induction false} TradesFollowMarkets(listed: seq<Listed>, wallet: Key)
    ensures UserTrades(listed, wallet)
            == Seqs.Map(Seqs.Filter(listed, (e: Listed) => Traded(e, wallet)), TradeOf)
  {
    if listed != [] {
      var traded := (x: Listed) => Traded(x, wallet);
      var first: seq<Trade> := if Traded(listed[0], wallet) then [TradeOf(listed[0])] else [];
      calc {
        UserTrades(listed, wallet);
        { UserTradesCons(listed, wallet); }
        first + UserTrades(listed[1..], wallet);
        { TradesFollowMarkets(listed[1..], wallet); }
        first + Seqs.Map(Seqs.Filter(listed[1..], traded), TradeOf);
        { TradedStep(listed[0], listed[1..], wallet); }
        Seqs.Map(Seqs.Filter([listed[0]] + listed[1..], traded), TradeOf);
        { assert listed == [listed[0]] + listed[1..]; }
        Seqs.Map(Seqs.Filter(listed, traded), TradeOf);
      }
    }
  }

  /** The trades of a non-empty list: the first market's trade, if any, then the rest's. */
  lemma UserTradesCons(listed: seq<Listed>, wallet: Key)
    requires listed != []
    ensures UserTrades(listed, wallet)
            == (if Traded(listed[0], wallet) then [TradeOf(listed[0])] else []) + UserTrades(listed[1..], wallet)
  {
  }

  /** One listed market in front: its trade, when it is a resolved market of the wallet, then the rest's. */
  lemma TradedStep(e: Listed, tail: seq<Listed>, wallet: Key)
    ensures Seqs.Map(Seqs.Filter([e] + tail, (x: Listed) => Traded(x, wallet)), TradeOf)
            == (if Traded(e, wallet) then [TradeOf(e)] else [])
               + Seqs.Map(Seqs.Filter(tail, (x: Listed) => Traded(x, wallet)), TradeOf)
  {
    var traded := (x: Listed) => Traded(x, wallet);
    Seqs.FilterCons(e, tail, traded);
    if Traded(e, wallet) {
      Seqs.MapCons(e, Seqs.Filter(tail, traded), TradeOf);
    }
  }

  predicate IsResolved(u: UserMarket)
  {
    u.status != 0
  }

  predicate IsWinningTrade(t: Trade)
  {
    t.status == Win
  }

  /** There is one trade per resolved market of the wallet. */
  lemma {:induction false} TradesAreResolvedMarkets(listed: seq<Listed>, wallet: Key)
    ensures |UserTrades(listed, wallet)| == Seqs.Count(UserMarkets(listed, wallet), IsResolved)
  {
    if listed != [] {
      TradesAreResolvedMarkets(listed[1..], wallet);
      var rest := UserMarkets(listed[1..], wallet);
      if Owned(listed[0], wallet) {
        assert ([ToUserMarket(listed[0])] + rest)[1..] == rest;
      }
    }
  }

  /** The pooled volume of the wallet's markets. */
  function SumPools(ums: seq<UserMarket>): nat
  {
    if ums == [] then 0 else ums[0].yesPool + ums[0].noPool + SumPools(ums[1..])
  }

  /**
    The page's figures for `wallet`: markets, resolved markets, trades and
    wins, with wins never exceeding trades, trades equal to resolved
    markets, so the active-positions figure (trades minus wins) is never
    negative; no trades means a win rate of 0.
   */
  function LoadProfile(accounts: seq<Account>, wallet: Key): (d: ProfileData)
    ensures d.winningTrades <= d.totalTrades == d.resolvedMarkets <= d.totalMarkets
    ensures d.totalTrades == 0 ==> d.winRate == 0.0
    ensures 0.0 <= d.winRate <= 100.0
    ensures d.totalMarkets == |Seqs.Filter(ListedMarkets(accounts), (e: Listed) => Owned(e, wallet))|
    ensures forall t :: t in d.trades ==> t.status == Win || t.status == Loss
  {
    var listed := ListedMarkets(accounts);
    var ums := UserMarkets(listed, wallet);
    var trades := UserTrades(listed, wallet);
    var winning := Seqs.Count(trades, IsWinningTrade);
    TradesAreResolvedMarkets(listed, wallet);
    UserMarketsInOrder(listed, wallet);
    Seqs.CountBound(trades, IsWinningTrade);
    Seqs.CountBound(ums, IsResolved);
    var volume := SumPools(ums);
    ProfileData(|ums|, Seqs.Count(ums, IsResolved), volume, winning, |trades|,
                WinRate(winning, |trades|), volume as real * 0.1, trades)
  }

  /**
    What each figure of a loaded profile is: the trades are the wallet's
    resolved markets as trades, the resolved count counts the wallet's
    resolved markets, wins count the winning trades, and the win rate is
    the percentage of trades won.
   */
  lemma LoadProfileFields(accounts: seq<Account>, wallet: Key)
    ensures var d := LoadProfile(accounts, wallet);
            && d.trades == UserTrades(ListedMarkets(accounts), wallet)
            && d.totalTrades == |d.trades|
            && d.totalMarkets == |UserMarkets(ListedMarkets(accounts), wallet)|
            && d.resolvedMarkets == Seqs.Count(UserMarkets(ListedMarkets(accounts), wallet), IsResolved)
            && d.winningTrades == Seqs.Count(d.trades, IsWinningTrade)
            && d.winRate == WinRate(d.winningTrades, d.totalTrades)
            && d.totalVolume == SumPools(UserMarkets(ListedMarkets(accounts), wallet))
            && d.estimatedPnL == d.totalVolume as real / 10.0
  {
  }

  /**
    The pools of the wallet's markets, summed from the front, are the
    leaderboard's volume of the same markets selected by creator.
  */
  lemma {:induction false} PoolsAreCreatorVolume(listed: seq<Listed>, wallet: Key)
    ensures SumPools(UserMarkets(listed, wallet))
            == Leaderboard.SumVolume(Leaderboard.Mine(Seqs.Map(listed, Leaderboard.MarketOf), wallet))
  {
    if listed != [] {
      var e, tail := listed[0], listed[1..];
      assert listed == [e] + tail;
      Seqs.MapCons(e, tail, Leaderboard.MarketOf);
      Leaderboard.MineCons(e.market, Seqs.Map(tail, Leaderboard.MarketOf), wallet);
      PoolsAreCreatorVolume(tail, wallet);
      var rest := UserMarkets(tail, wallet);
      var mine := Leaderboard.Mine(Seqs.Map(tail, Leaderboard.MarketOf), wallet);
      if Owned(e, wallet) {
        var u := ToUserMarket(e);
        assert UserMarkets(listed, wallet) == [u] + rest;
        assert ([u] + rest)[1..] == rest;
        Leaderboard.SumVolumeCons(e.market, mine);
      } else {
        assert UserMarkets(listed, wallet) == rest;
        assert [] + mine == mine;
      }
    }
  }

  /**
    The profile's total volume is the volume the leaderboard credits to the
    wallet as a creator, whatever the clock.
  */
  lemma ProfileVolumeIsCreatorVolume(accounts: seq<Account>, wallet: Key, now: int)
    ensures LoadProfile(accounts, wallet).totalVolume
            == Leaderboard.StatsOf(Leaderboard.Markets(accounts), wallet, now).totalVolume
  {
    LoadProfileFields(accounts, wallet);
    PoolsAreCreatorVolume(ListedMarkets(accounts), wallet);
  }

  /** Trades minus wins, the page's count of active positions. */
  function ActivePositions(d: ProfileData): int
  {
    d.totalTrades - d.winningTrades
  }

  /** The active-positions figure of a loaded profile is never negative. */
  lemma ActivePositionsNonNegative(accounts: seq<Account>, wallet: Key)
    ensures ActivePositions(LoadProfile(accounts, wallet)) >= 0
  {
  }
}
