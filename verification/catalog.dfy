/**
  The step every page performs on the program's accounts before anything
  else: decode each account and keep it only when it decodes and its
  question is non-empty (`if (market && market.question)` in script.js,
  leaderboard.js and profile.js).
 */
module Catalog {
  import opened Wrappers
  import opened Bytes
  import opened MarketAccount
  import Seqs

  /** One account returned by the ledger query: its address and raw data. */
  datatype Account = Account(pubkey: Key, data: seq<Byte>)

  /** A decoded market together with the address of its account. */
  datatype Listed = Listed(id: Key, market: Market)

  /** The UTF-8 byte order mark, which the text decoder strips from the front. */
  const Utf8Bom: seq<Byte> := [0xEF, 0xBB, 0xBF]

  /** The bytes the text decoder turns into characters: a leading byte order mark is dropped. */
  function StripBom(b: seq<Byte>): (r: seq<Byte>)
    ensures |b| >= 3 && b[..3] == Utf8Bom ==> b == Utf8Bom + r
    ensures !(|b| >= 3 && b[..3] == Utf8Bom) ==> r == b
  {
    if |b| >= 3 && b[..3] == Utf8Bom then b[3..] else b
  }

  /**
    The question decodes to non-empty text. The text decoder drops a leading
    byte order mark, so a question of exactly those three bytes reads as
    empty; any other non-empty byte string yields at least one character
    (invalid sequences become replacement characters).
   */
  predicate HasQuestion(m: Market)
  {
    m.question != [] && m.question != Utf8Bom
  }

  /** A question is present exactly when text is left once a leading byte order mark is dropped. */
  lemma QuestionIsNonEmptyText(m: Market)
    ensures HasQuestion(m) <==> StripBom(m.question) != []
  {
    if |m.question| >= 3 && m.question[..3] == Utf8Bom && StripBom(m.question) == [] {
      assert m.question == Utf8Bom + [];
    }
  }

  /** The account decodes and carries a non-empty question. */
  predicate Shown(a: Account)
  {
    Decode(a.data).Some? && HasQuestion(Decode(a.data).value)
  }

  /** The accounts that pass, in query order, paired with their decoded markets. */
  function ListedMarkets(accounts: seq<Account>): (r: seq<Listed>)
    ensures |r| <= |accounts|
    ensures forall e :: e in r ==> HasQuestion(e.market)
    ensures forall a :: a in accounts && Shown(a) ==> Listed(a.pubkey, Decode(a.data).value) in r
    ensures forall e :: e in r ==> exists a :: a in accounts && Decode(a.data) == Some(e.market) && a.pubkey == e.id
  {
    if accounts == [] then []
    else
      var a := accounts[0];
      var rest := ListedMarkets(accounts[1..]);
      assert forall b :: b in accounts[1..] ==> b in accounts;
      if Shown(a) then [Listed(a.pubkey, Decode(a.data).value)] + rest else rest
  }

  /** What one account contributes to the list: its entry when shown, nothing otherwise. */
  function Entry(a: Account): seq<Listed>
  {
    if Shown(a) then [Listed(a.pubkey, Decode(a.data).value)] else []
  }

  /** The list is each account's contribution, joined in query order. */
  lemma {:induction false} ListedIsFlatMap(accounts: seq<Account>)
    ensures ListedMarkets(accounts) == Seqs.FlatMap(accounts, Entry)
  {
    if accounts != [] {
      ListedIsFlatMap(accounts[1..]);
    }
  }

  /**
    One more account from the query adds its entry at the end when it is
    shown and nothing otherwise: entries keep the query's order.
   */
  lemma ListedSnoc(accounts: seq<Account>, a: Account)
    ensures ListedMarkets(accounts + [a])
            == ListedMarkets(accounts) + (if Shown(a) then [Listed(a.pubkey, Decode(a.data).value)] else [])
  {
    ListedIsFlatMap(accounts);
    ListedIsFlatMap(accounts + [a]);
    Seqs.FlatMapSnoc(accounts, a, Entry);
  }

  /** Exactly the shown accounts are listed: the count matches. */
  lemma {:induction false} ListedCount(accounts: seq<Account>)
    ensures |ListedMarkets(accounts)| == |Seqs.Filter(accounts, Shown)|
  {
    if accounts != [] {
      ListedCount(accounts[1..]);
    }
  }
}
