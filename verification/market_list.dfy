/**
  The market grid of script.js: `fetchMarkets` turns the program's accounts
  into cards (decode, drop empty questions and markets created before the
  cutoff, compute prices, newest first) and `renderMarkets` narrows them to
  the connected wallet's markets on the "my" tab.
 */
module MarketList {
  import opened Wrappers
  import opened Bytes
  import opened MarketAccount
  import opened Catalog
  import opened Pricing
  import opened Sorting
  import Seqs

  /** Markets created before this time are hidden; 0 shows every market. */
  const MarketCutoffTimestamp: int := 0

  /** What a market card shows: pools in raw units and the two prices. */
  datatype Card = Card(
    id: Key,
    creator: Key,
    question: seq<Byte>,
    yesPool: U64,
    noPool: U64,
    volume: nat,
    yesPrice: real,
    noPrice: real,
    status: Byte,
    createdAt: U64)

  /** The card for a listed market: its own address and creator, its pooled volume, its two prices. */
  function ToCard(e: Listed): (c: Card)
    ensures c.id == e.id && c.creator == e.market.creator && c.createdAt == e.market.createdAt
    ensures c.question == e.market.question && c.status == e.market.status
    ensures c.yesPool == e.market.yesPool && c.noPool == e.market.noPool
    ensures c.yesPrice == YesPrice(e.market.yesPool, e.market.noPool)
    ensures c.volume == e.market.yesPool + e.market.noPool
    ensures 0.0 <= c.yesPrice <= 1.0 && c.yesPrice + c.noPrice == 1.0
    ensures c.yesPrice > 0.5 <==> e.market.yesPool > e.market.noPool
  {
    YesPriceAgainstHalf(e.market.yesPool, e.market.noPool);
    var m := e.market;
    Card(e.id, m.creator, m.question, m.yesPool, m.noPool, m.yesPool + m.noPool,
         YesPrice(m.yesPool, m.noPool), NoPrice(m.yesPool, m.noPool), m.status, m.createdAt)
  }

  /** Created at or after the cutoff. */
  predicate Recent(cutoff: int, e: Listed)
  {
    e.market.createdAt >= cutoff
  }

  /**
    The decode loop of `fetchMarkets`, account by account in query order.
    Every card comes from an account that decodes with a non-empty question
    and a creation time not before the cutoff, and carries prices in [0,1]
    that add up to one.
   */
  function CollectCards(accounts: seq<Account>, cutoff: int): (r: seq<Card>)
    ensures |r| <= |accounts|
    ensures forall c :: c in r ==> c.createdAt >= cutoff && c.question != []
    ensures forall c :: c in r ==> 0.0 <= c.yesPrice <= 1.0 && c.yesPrice + c.noPrice == 1.0
  {
    if accounts == [] then []
    else
      var rest := CollectCards(accounts[1..], cutoff);
      var a := accounts[0];
      match Decode(a.data)
      case None => rest
      case Some(m) =>
        if HasQuestion(m) && m.createdAt >= cutoff then [ToCard(Listed(a.pubkey, m))] + rest else rest
  }

  /** The loop is the listed markets, narrowed to recent ones, as cards, in the same order. */
  lemma {:induction false} CollectIsRecentListed(accounts: seq<Account>, cutoff: int)
    ensures CollectCards(accounts, cutoff)
            == Seqs.Map(Seqs.Filter(ListedMarkets(accounts), (e: Listed) => Recent(cutoff, e)), ToCard)
  {
    if accounts != [] {
      CollectIsRecentListed(accounts[1..], cutoff);
      var a := accounts[0];
      if Shown(a) {
        RecentListedStep(Listed(a.pubkey, Decode(a.data).value), ListedMarkets(accounts[1..]), cutoff);
      }
    }
  }

  /** One listed market in front: its card, when recent, then the cards of the rest. */
  lemma RecentListedStep(e: Listed, tail: seq<Listed>, cutoff: int)
    ensures Seqs.Map(Seqs.Filter([e] + tail, (x: Listed) => Recent(cutoff, x)), ToCard)
            == (if Recent(cutoff, e) then [ToCard(e)] else [])
               + Seqs.Map(Seqs.Filter(tail, (x: Listed) => Recent(cutoff, x)), ToCard)
  {
    var recent := (x: Listed) => Recent(cutoff, x);
    Seqs.FilterCons(e, tail, recent);
    if Recent(cutoff, e) {
      Seqs.MapCons(e, Seqs.Filter(tail, recent), ToCard);
    }
  }

  /** With the cutoff at 0 no listed market is hidden for its age: creation times are read unsigned. */
  lemma {:induction false} ZeroCutoffHidesNothing(accounts: seq<Account>)
    ensures |CollectCards(accounts, MarketCutoffTimestamp)| == |ListedMarkets(accounts)|
  {
    if accounts != [] {
      ZeroCutoffHidesNothing(accounts[1..]);
    }
  }

  function CreatedAt(c: Card): real
  {
    c.createdAt as real
  }

  /**
    The grid's data: the collected cards sorted newest first. Equal creation
    times keep their query order (see `FetchMarketsKeepsTies`).
   */
  function FetchMarkets(accounts: seq<Account>): (r: seq<Card>)
    ensures multiset(r) == multiset(CollectCards(accounts, MarketCutoffTimestamp))
    ensures forall i, j :: 0 <= i < j < |r| ==> r[i].createdAt >= r[j].createdAt
  {
    var r := SortBy(CollectCards(accounts, MarketCutoffTimestamp), CreatedAt, true);
    assert forall i, j :: 0 <= i < j < |r| ==> InOrder(CreatedAt(r[i]), CreatedAt(r[j]), true);
    r
  }

  /** Cards created at the same second appear in the order the query returned them. */
  lemma FetchMarketsKeepsTies(accounts: seq<Account>, t: real)
    ensures WithKey(FetchMarkets(accounts), CreatedAt, t)
            == WithKey(CollectCards(accounts, MarketCutoffTimestamp), CreatedAt, t)
  {
    SortByIsStable(CollectCards(accounts, MarketCutoffTimestamp), CreatedAt, true, t);
  }

  /** What the grid shows: a prompt to connect, or a list of cards (possibly empty). */
  datatype View = ConnectPrompt | Cards(cards: seq<Card>)

  /**
    `renderMarkets`: the "my" tab without a wallet asks to connect; with one
    it keeps exactly the cards the wallet created, in order; any other tab
    shows everything.
   */
  function RenderMarkets(data: seq<Card>, tab: string, wallet: Option<Key>): (v: View)
    ensures tab == "my" && wallet.None? ==> v == ConnectPrompt
    ensures tab != "my" ==> v == Cards(data)
    ensures tab == "my" && wallet.Some? ==>
              && v.Cards?
              && |v.cards| <= |data|
              && (forall c :: c in v.cards <==> c in data && c.creator == wallet.value)
  {
    if tab == "my" then
      if wallet.None? then ConnectPrompt
      else Cards(Seqs.Filter(data, (c: Card) => c.creator == wallet.value))
    else Cards(data)
  }

  /** The "my" tab of the fetched grid is still newest first. */
  lemma MyTabNewestFirst(accounts: seq<Account>, wallet: Key)
    ensures var v := RenderMarkets(FetchMarkets(accounts), "my", Some(wallet));
            forall i, j :: 0 <= i < j < |v.cards| ==> v.cards[i].createdAt >= v.cards[j].createdAt
  {
    var data := FetchMarkets(accounts);
    assert Ordered(data, CreatedAt, true);
    FilterKeepsOrder(data, (c: Card) => c.creator == wallet, CreatedAt, true);
    var v := RenderMarkets(data, "my", Some(wallet));
    assert Ordered(v.cards, CreatedAt, true);
  }
}
