/**
  The leaderboard table of leaderboard.js: each creator's entry with a win
  rate and an estimated profit, then `applyFiltersAndSort`: the period
  filter, the address search, the stable sort on the chosen column and the
  ranks 1..n. Win rates and profits are exact reals here.
 */
module LeaderboardView {
  import opened Wrappers
  import opened Bytes
  import opened Catalog
  import opened Sorting
  import opened Text
  import opened Leaderboard
  import Seqs

  /** An entry with the two figures derived from it. */
  datatype Row = Row(stats: CreatorStats, winRate: real, estimatedPnL: real)

  /** A row with its place in the displayed list. */
  datatype Ranked = Ranked(row: Row, rank: nat)

  /** Percentage of resolved markets won; 0 when none is resolved. */
  function WinRate(winning: nat, resolved: nat): (w: real)
    ensures resolved == 0 ==> w == 0.0
    ensures resolved > 0 ==> w * resolved as real == 100.0 * winning as real
    ensures winning <= resolved ==> 0.0 <= w <= 100.0
    ensures w == 0.0 <==> winning == 0 || resolved == 0
  {
    if resolved > 0 then (winning as real / resolved as real) * 100.0 else 0.0
  }

  /**
    The row for an entry: its win rate, and a tenth of its volume scaled by
    that rate as the estimated profit, so never more than a tenth of the
    volume for a consistent entry.
   */
  function ToRow(s: CreatorStats): (r: Row)
    ensures r.stats == s
    ensures r.winRate == WinRate(s.winningMarkets, s.resolvedMarkets)
    ensures Consistent(s) ==> 0.0 <= r.estimatedPnL <= s.totalVolume as real / 10.0
    ensures r.estimatedPnL == 0.0 <==> s.totalVolume == 0 || s.winningMarkets == 0 || s.resolvedMarkets == 0
  {
    var w := WinRate(s.winningMarkets, s.resolvedMarkets);
    var v := s.totalVolume as real * 0.1;
    assert v == 0.0 <==> s.totalVolume == 0;
    assert v * (w / 100.0) == 0.0 <==> v == 0.0 || w == 0.0;
    Row(s, w, v * (w / 100.0))
  }

  function RowAddress(r: Row): Key
  {
    r.stats.address
  }

  /**
    The rows the page starts from, one per creator of a listed market, in
    order of first appearance.
   */
  function LoadLeaderboard(accounts: seq<Account>, now: int): (rows: seq<Row>)
    ensures |rows| == |Creators(Markets(accounts))|
    ensures Seqs.Map(rows, RowAddress) == Creators(Markets(accounts))
    ensures forall i :: 0 <= i < |rows| ==>
              && rows[i].stats == StatsOf(Markets(accounts), rows[i].stats.address, now)
              && 0.0 <= rows[i].winRate <= 100.0
  {
    AggregateFacts(accounts, now);
    var table := Aggregate(Markets(accounts), now);
    RowsKeepAddresses(table);
    Seqs.Map(table, ToRow)
  }

  /** Turning entries into rows keeps their addresses in place. */
  lemma RowsKeepAddresses(table: seq<CreatorStats>)
    ensures Seqs.Map(Seqs.Map(table, ToRow), RowAddress) == Seqs.Map(table, AddressOf)
  {
  }

  /** The row seen through one period: its counts and volume replaced by that period's. */
  function InPeriod(r: Row, week: bool): Row
  {
    var s := r.stats;
    if week then r.(stats := s.(marketsCreated := s.marketsThisWeek, totalVolume := s.volumeThisWeek))
    else r.(stats := s.(marketsCreated := s.marketsThisMonth, totalVolume := s.volumeThisMonth))
  }

  function InWeek(r: Row): Row { InPeriod(r, true) }

  function InMonth(r: Row): Row { InPeriod(r, false) }

  predicate Active(r: Row)
  {
    r.stats.marketsCreated > 0
  }

  /**
    The period filter: "week" and "month" show each row's figures for that
    period and drop creators with no market in it; any other period shows
    the rows unchanged. Win rate and profit stay the all-time figures.
   */
  function ByPeriod(rows: seq<Row>, period: string): (r: seq<Row>)
    ensures period != "week" && period != "month" ==> r == rows
    ensures |r| <= |rows|
    ensures period == "week" ==>
              forall x :: x in r <==> x in Seqs.Map(rows, InWeek) && x.stats.marketsThisWeek > 0
    ensures period == "month" ==>
              forall x :: x in r <==> x in Seqs.Map(rows, InMonth) && x.stats.marketsThisMonth > 0
  {
    if period == "week" then Seqs.Filter(Seqs.Map(rows, InWeek), Active)
    else if period == "month" then Seqs.Filter(Seqs.Map(rows, InMonth), Active)
    else rows
  }

  /** A row shown for a period carries that period's figures, from a row with markets in it. */
  lemma ByPeriodRows(rows: seq<Row>, period: string, x: Row)
    requires period == "week" || period == "month"
    requires x in ByPeriod(rows, period)
    ensures exists i :: 0 <= i < |rows| && x == InPeriod(rows[i], period == "week")
    ensures x.stats.marketsCreated > 0
    ensures period == "week" ==> x.stats.marketsCreated == x.stats.marketsThisWeek && x.stats.totalVolume == x.stats.volumeThisWeek
    ensures period == "month" ==> x.stats.marketsCreated == x.stats.marketsThisMonth && x.stats.totalVolume == x.stats.volumeThisMonth
  {
    var mapped := if period == "week" then Seqs.Map(rows, InWeek) else Seqs.Map(rows, InMonth);
    var i :| 0 <= i < |mapped| && mapped[i] == x;
    assert x == InPeriod(rows[i], period == "week");
  }

  /** Every row with a market in the period is shown for it. */
  lemma ByPeriodKeepsActive(rows: seq<Row>, period: string, i: nat)
    requires period == "week" || period == "month"
    requires i < |rows|
    requires if period == "week" then rows[i].stats.marketsThisWeek > 0 else rows[i].stats.marketsThisMonth > 0
    ensures InPeriod(rows[i], period == "week") in ByPeriod(rows, period)
  {
    if period == "week" {
      assert Seqs.Map(rows, InWeek)[i] == InPeriod(rows[i], true);
    } else {
      assert Seqs.Map(rows, InMonth)[i] == InPeriod(rows[i], false);
    }
  }

  /**
    The period filter keeps the rows' order: rows ordered by any key after
    taking the period's figures stay so ordered once inactive ones are dropped.
   */
  lemma ByPeriodKeepsOrder(rows: seq<Row>, period: string, key: Row -> real, descending: bool)
    requires period == "week" ==> Ordered(Seqs.Map(rows, InWeek), key, descending)
    requires period == "month" ==> Ordered(Seqs.Map(rows, InMonth), key, descending)
    requires period != "week" && period != "month" ==> Ordered(rows, key, descending)
    ensures Ordered(ByPeriod(rows, period), key, descending)
  {
    if period == "week" {
      FilterKeepsOrder(Seqs.Map(rows, InWeek), Active, key, descending);
    } else if period == "month" {
      FilterKeepsOrder(Seqs.Map(rows, InMonth), Active, key, descending);
    }
  }

  /** The lower-cased address text contains the lower-cased term. */
  predicate Matches(r: Row, term: string, addressText: Key -> string)
  {
    Contains(Lower(addressText(r.stats.address)), Lower(term))
  }

  /**
    The search box: a term that is blank after trimming keeps every row;
    otherwise exactly the rows whose address text, lower-cased, contains the
    trimmed term, lower-cased, are kept, in order. The text of an address is
    a parameter.
   */
  function Search(rows: seq<Row>, input: string, addressText: Key -> string): (r: seq<Row>)
    ensures Trim(input) == [] ==> r == rows
    ensures Trim(input) != [] ==>
              forall x :: x in r <==> x in rows && Matches(x, Trim(input), addressText)
    ensures |r| <= |rows|
  {
    var term := Trim(input);
    if term == [] then rows
    else Seqs.Filter(rows, (x: Row) => Matches(x, term, addressText))
  }

  /** The search keeps the rows' order: rows ordered by any key stay so ordered. */
  lemma SearchKeepsOrder(rows: seq<Row>, input: string, addressText: Key -> string, key: Row -> real, descending: bool)
    requires Ordered(rows, key, descending)
    ensures Ordered(Search(rows, input, addressText), key, descending)
  {
    var term := Trim(input);
    if term != [] {
      FilterKeepsOrder(rows, (x: Row) => Matches(x, term, addressText), key, descending);
    }
  }

  /** Searching for an address exactly as displayed finds its row. */
  lemma SearchFindsAddress(rows: seq<Row>, x: Row, addressText: Key -> string)
    requires x in rows
    requires Trim(addressText(x.stats.address)) == addressText(x.stats.address)
    ensures x in Search(rows, addressText(x.stats.address), addressText)
  {
    var text := Lower(addressText(x.stats.address));
    assert OccursAt(text, text, 0);
  }

  /**
    The column a sort key selects: volume, markets, win rate or profit; the
    rank key and any unknown key sort by volume.
   */
  function SortValue(sortKey: string, r: Row): (v: real)
    ensures sortKey != "markets" && sortKey != "winrate" && sortKey != "pnl" ==> v == r.stats.totalVolume as real
    ensures sortKey == "markets" ==> v == r.stats.marketsCreated as real
    ensures sortKey == "winrate" ==> v == r.winRate
    ensures sortKey == "pnl" ==> v == r.estimatedPnL
    ensures 0.0 <= r.winRate && 0.0 <= r.estimatedPnL ==> 0.0 <= v
  {
    match sortKey
    case "volume" => r.stats.totalVolume as real
    case "markets" => r.stats.marketsCreated as real
    case "winrate" => r.winRate
    case "pnl" => r.estimatedPnL
    case _ => r.stats.totalVolume as real
  }

  /** Rank and unknown sort keys order by volume. */
  lemma DefaultSortIsVolume(sortKey: string, r: Row)
    requires sortKey != "markets" && sortKey != "winrate" && sortKey != "pnl"
    ensures SortValue(sortKey, r) == r.stats.totalVolume as real
  {
  }

  /**
    The stable sort on the chosen column: largest first for "desc", smallest
    first for any other direction.
   */
  function SortRows(rows: seq<Row>, sortKey: string, direction: string): (r: seq<Row>)
    ensures multiset(r) == multiset(rows)
    ensures |r| == |rows|
    ensures forall i, j :: 0 <= i < j < |r| ==>
              if direction == "desc" then SortValue(sortKey, r[i]) >= SortValue(sortKey, r[j])
              else SortValue(sortKey, r[i]) <= SortValue(sortKey, r[j])
  {
    var r := SortBy(rows, (x: Row) => SortValue(sortKey, x), direction == "desc");
    assert forall i, j :: 0 <= i < j < |r| ==>
             InOrder(SortValue(sortKey, r[i]), SortValue(sortKey, r[j]), direction == "desc");
    r
  }

  /** Numbers the rows 1, 2, ... in list order. */
  function Rank(rows: seq<Row>): (r: seq<Ranked>)
    ensures |r| == |rows|
    ensures forall i :: 0 <= i < |r| ==> r[i] == Ranked(rows[i], i + 1)
  {
    if rows == [] then []
    else
      var rest := Rank(rows[..|rows| - 1]);
      rest + [Ranked(rows[|rows| - 1], |rows|)]
  }

  /**
    `applyFiltersAndSort`: period filter, then search, then sort, then ranks.
    The result is a rearrangement of the filtered rows, ordered on the chosen
    column, ranked 1..n.
   */
  function ApplyFiltersAndSort(rows: seq<Row>, period: string, input: string, sortKey: string,
                               direction: string, addressText: Key -> string): (r: seq<Ranked>)
    ensures |r| <= |rows|
    ensures forall i :: 0 <= i < |r| ==> r[i].rank == i + 1
    ensures multiset(Seqs.Map(r, RowOf)) == multiset(Search(ByPeriod(rows, period), input, addressText))
    ensures forall i, j :: 0 <= i < j < |r| ==>
              if direction == "desc" then SortValue(sortKey, r[i].row) >= SortValue(sortKey, r[j].row)
              else SortValue(sortKey, r[i].row) <= SortValue(sortKey, r[j].row)
  {
    var shown := Search(ByPeriod(rows, period), input, addressText);
    var sorted := SortRows(shown, sortKey, direction);
    var r := Rank(sorted);
    assert Seqs.Map(r, RowOf) == sorted;
    r
  }

  function RowOf(x: Ranked): Row
  {
    x.row
  }

  /** Rows that tie on the chosen column keep the order they had before sorting. */
  lemma SortRowsKeepsTies(rows: seq<Row>, sortKey: string, direction: string, v: real)
    ensures var key := (x: Row) => SortValue(sortKey, x);
            WithKey(SortRows(rows, sortKey, direction), key, v) == WithKey(rows, key, v)
  {
    SortByIsStable(rows, (x: Row) => SortValue(sortKey, x), direction == "desc", v);
  }
}
