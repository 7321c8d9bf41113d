# Prediction-market front end: account codec and derived views

This project models the browser front end of a prediction-market program. It covers three pages:

- `script.js`: the market list and the create-market form;
- `leaderboard.js`: the creator leaderboard;
- `profile.js`: the connected wallet's profile.

The model covers:

- **The market account codec.** A Borsh-style record sits behind an 8-byte Anchor-style discriminator. It holds:
  - a creator key;
  - a u32-prefixed question;
  - a base-mint key;
  - four u64 amounts;
  - a status byte;
  - two 8-byte timestamps;
  - a resolver key;
  - a fee-paid byte.

  `MarketAccount.Decode` is the one decoder. `decodeMarket` has the same body in all three files, and every page in the model calls this single definition. `MarketAccount.EncodeAccount` is a writer in the decoder's order and widths, used to state the round trip.
- **The create-market instruction payload.** It holds:
  - the discriminator `67 e2 61 eb c8 bc fb fe`;
  - the question, prefixed with its length;
  - the resolve time, `now + 604800`;
  - the liquidity, `input * 10^9`.

  It is modelled as built by the submit handler (`CreateMarket.EncodeAsWritten`), with a corrected version (`CreateMarket.EncodeCreateMarket`) and a parser for the payload.
- **The market list.** Decoding and dropping empty questions is shared by all pages (`Catalog.ListedMarkets`). The list then applies the creation cutoff, the YES/NO prices, a stable newest-first sort and the "my" tab filter.
- **The leaderboard.** It aggregates statistics per creator (counts, volumes, the win rule, the week and month figures) and derives a win rate and an estimated profit. It then applies the period filter, the address search, the stable sort on the chosen column and ranks 1..n.
- **The profile.** It covers the wallet's markets and their resolved subset shown as trades, and the figures derived from them.

Integers are unbounded in Dafny. The model writes out each width explicitly:

- bytes are `nat < 256`;
- amounts and timestamps are `U64`;
- a question of 2^32 bytes or more, which no JavaScript string can encode to, is an error instead of a wrapped length prefix;
- the 2^53 safe-integer limit of JavaScript numbers applies where the encoder relies on it.

Prices, win rates and profits are exact reals. Volumes are raw token units, before the division by 10^9.

The following are parameters rather than computed:

- the wall clock (`now`);
- the connected wallet;
- the address text shown for a key, which the source produces with base58.

The program's account layout gives the status an enum range, the fee flag a boolean encoding and the account a fixed discriminator. The decoder checks none of them, and the model follows the decoder:

- the status byte is returned raw, with no range check;
- any fee byte other than 1 reads as false, not as an error;
- the discriminator is skipped, not compared.

Each of these is a lemma (`StatusNotValidated`, `FeeByteNotValidated`, `DiscriminatorIgnored`).

## Model

| member | source | states |
|---|---|---|
| Bytes.LeBytes | script.js:155-162 | writing `n` as `width` little-endian bytes yields exactly `width` bytes that read back as `n` |
| Bytes.LeValueIsPositionalSum | script.js:231-244 | the little-endian reading of a byte string equals the positional sum of b[i]·256^i |
| Bytes.LeValueBound | script.js:231-244 | k bytes read as a value below 256^k, so every 8-byte amount is below 2^64 |
| Bytes.LeBytesOfValue | script.js:155-162 | writing the value a byte string reads as, at its width, gives back that byte string |
| Borsh.ReadU32 | script.js:221 | a u32 read succeeds exactly when four bytes are available at the offset; its value is their little-endian reading, below 2^32 |
| Borsh.ReadU64 | script.js:231-233 | an 8-byte read succeeds exactly when eight bytes are available; it advances the offset by 8 |
| MarketAccount.Decode | script.js:211-284 | decoding succeeds exactly when the buffer holds the 44 bytes up to the length prefix and the whole 158+L-byte record; the decoded record sits field by field at the layout's offsets; a failure yields None and never a partial record |
| MarketAccount.EncodeAccount | script.js:211-264 | a record written in the decoder's order and widths is 158+L bytes long; it starts with the given discriminator, every field sits at its layout offset, and the fee byte is 1 or 0 |
| MarketAccount.RoundTrip | script.js:211-279 | decoding a written record returns the same record |
| MarketAccount.DecodeOfLayout | script.js:211-279 | any buffer laid out as a record decodes to that record, whatever its first eight and trailing bytes |
| MarketAccount.RecordSize | script.js:214-264 | a decoded record with question length L came from at least 158+L bytes; L is the u32 at [40,44); every shorter prefix fails to decode |
| MarketAccount.ReencodeRecoversBytes | script.js:211-264 | re-writing a decoded record behind the buffer's own discriminator reproduces the buffer's first 158+L bytes when its fee byte is 0 or 1 |
| MarketAccount.DiscriminatorIgnored | script.js:213-214 | replacing the first eight bytes never changes the decoding |
| MarketAccount.TrailingBytesIgnored | script.js:263-264 | bytes after the fee byte are never read |
| MarketAccount.StatusNotValidated | script.js:247-249 | any value of the status byte decodes and is returned unchanged |
| MarketAccount.FeeByteNotValidated | script.js:262-264 | any fee byte decodes; the flag is true exactly when the byte is 1 |
| Catalog.ListedMarkets | script.js:299-302 | the listed markets all have non-empty question text; every account that decodes with a non-empty question is listed, and every listed entry comes from such an account |
| Catalog.ListedSnoc | script.js:299-302 | one more account from the query appends its entry when it decodes with a question and adds nothing otherwise, so entries keep the query's order |
| Catalog.QuestionIsNonEmptyText | script.js:302 | a question counts as present exactly when its bytes are non-empty once a leading UTF-8 byte order mark is dropped |
| Catalog.ListedCount | script.js:299-302 | exactly the accounts that decode with a non-empty question are listed, one entry each |
| CreateMarket.Serialize | script.js:140-161 | the payload is 8+4+\|q\|+8+8 bytes: the discriminator, \|q\| as u32, the question bytes, then the resolve time and the liquidity as 8-byte little-endian values |
| CreateMarket.EncodeAsWritten | script.js:133-161 | the submit handler produces a payload exactly when now+604800 is below 2^53 and the magnitude of input·10^9 fits in 8 bytes (and the question is shorter than 2^32 bytes, which every JavaScript string is); the payload holds now+604800 and that magnitude |
| CreateMarket.NegativeLiquidityEncodedAsPositive | script.js:138-161 | a negative liquidity input produces the same payload as its positive counterpart, asking the program to deposit a positive amount |
| CreateMarket.EncodeCreateMarket | script.js:132-162 | the corrected encoder produces a payload exactly when the question fits, the resolve time is safe and 0 ≤ input with input·10^9 < 2^64; a negative input is refused |
| CreateMarket.EncodersAgreeOnNonNegative | script.js:138-161 | on non-negative input the corrected encoder and the submit handler agree |
| CreateMarket.ParseCreateMarket | script.js:140-161 | a payload that parses has the discriminator and exact length, and holds the parsed arguments at their offsets |
| CreateMarket.ParseSerialize | script.js:140-161 | parsing a serialized payload gives back its arguments |
| CreateMarket.SerializeParse | script.js:140-161 | a payload that parses is the serialization of what it parses to |
| CreateMarket.EncodedPayloadParses | script.js:132-162 | the program reads the question, now+604800 and input·10^9 back from an accepted payload |
| Pricing.YesPrice | script.js:311-316 | the YES price is 0.5 when both pools are empty and otherwise yes/(yes+no); it always lies in [0,1] |
| Pricing.NoPrice | script.js:334 | the NO price lies in [0,1] and adds up to 1 with the YES price |
| Pricing.NoPriceMirrorsYesPrice | script.js:311-334 | swapping the pools swaps the two prices |
| Pricing.YesPriceAgainstHalf | script.js:311-316 | the YES price is above, at or below one half exactly when the YES pool is above, equal to or below the NO pool |
| Pricing.WinMeansWinningSideFavoured | leaderboard.js:175-176 | the win rule `IsWin`, shared with profile.js, counts a market as won exactly when the side it resolved to (status 1 YES, status 2 NO) is priced above one half |
| Sorting.SortBy | script.js:343 | the sort returns a permutation of its input, ordered by the key in the chosen direction |
| Sorting.SortByIsStable | script.js:343 | elements with equal keys keep their original relative order |
| Sorting.FilterKeepsOrder | script.js:457 | filtering an ordered list leaves it ordered |
| Text.Trim | leaderboard.js:238-239 | trimming keeps a contiguous run of the input that has only white space and line terminators around it; it is empty exactly when the input is all such characters, and otherwise starts and ends with a kept character |
| Text.Lower | leaderboard.js:239-241 | lower-casing maps A–Z to a–z position by position and keeps every other character |
| MarketList.ToCard | script.js:309-338 | a card keeps its market's address, creator, question, pools, status and creation time; it carries the pooled volume and the market's YES price, with the NO price making up 1; YES is above one half exactly when the YES pool is larger |
| MarketList.CollectCards | script.js:299-338 | every card comes from a market with a question and a creation time not before the cutoff; its prices lie in [0,1] and add up to 1 |
| MarketList.CollectIsRecentListed | script.js:302-307 | the cards are exactly the listed markets created at or after the cutoff, as cards, in query order |
| MarketList.ZeroCutoffHidesNothing | script.js:5 | with the cutoff at 0 every listed market becomes a card |
| MarketList.FetchMarkets | script.js:343 | the grid data is a permutation of the collected cards, newest first |
| MarketList.FetchMarketsKeepsTies | script.js:343 | cards created in the same second keep their query order |
| MarketList.RenderMarkets | script.js:450-458 | on the "my" tab without a wallet the grid asks to connect; with a wallet it shows exactly the cards the wallet created; any other tab shows every card |
| MarketList.MyTabNewestFirst | script.js:457 | the "my" tab of the fetched grid is still newest first |
| Leaderboard.RecordKeepsConsistent | leaderboard.js:164-190 | recording a market keeps the entry's address, lists the market last, and keeps a consistent entry consistent: one more market, wins within resolved within created, week within month within all time |
| Leaderboard.IndexOf | leaderboard.js:144-145 | the lookup finds the first entry with the creator's address, or reports that there is none |
| Leaderboard.Aggregate | leaderboard.js:140-194 | the aggregation yields one entry per distinct creator in order of first appearance; each entry equals the reference statistics of that creator's own markets |
| Leaderboard.Step | leaderboard.js:143-190 | one loop iteration keeps the table equal to the reference statistics of the markets seen so far |
| Leaderboard.Creators | leaderboard.js:144-160 | the creators list holds each creator of a market exactly once |
| Leaderboard.Mine | leaderboard.js:143-166 | a creator's markets are exactly the markets with that creator |
| Leaderboard.MineCons | leaderboard.js:143-166 | selecting a creator's markets from the front: the first market, when it is the creator's, comes before the creator's markets among the rest |
| Leaderboard.SumVolumeCons | leaderboard.js:160-166 | a creator's volume summed from the front is the first market's yes and no pools plus the rest's volume |
| Leaderboard.CountWins | leaderboard.js:172-179 | no more markets are won than are resolved |
| Leaderboard.SumVolumeSince | leaderboard.js:183-190 | a period's volume never exceeds the total volume |
| Leaderboard.CountSinceAntitone | leaderboard.js:136-190 | the count and volume since an earlier cutoff are at least those since a later one |
| Leaderboard.StatsOfConsistent | leaderboard.js:164-190 | marketsCreated equals the length of markets; winning ≤ resolved ≤ created; week ≤ month ≤ created; week volume ≤ month volume ≤ total volume |
| Leaderboard.AggregateFacts | leaderboard.js:140-194 | the entry addresses are exactly the creators of the listed markets, distinct, in order of first appearance; each is consistent, and its marketsCreated counts exactly its creator's listed markets |
| Leaderboard.KeyedDistinct | leaderboard.js:145-160 | no two entries share an address |
| Leaderboard.WinNeedsResolvedSideAhead | leaderboard.js:172-179 | a win needs a resolved status; equal pools, and statuses other than 1 and 2, are never wins |
| Leaderboard.Markets | leaderboard.js:140-142 | the aggregated markets are the listed ones, position by position in query order, all with non-empty questions |
| LeaderboardView.WinRate | leaderboard.js:195-197 | the win rate is 0 without resolved markets and otherwise 100·winning/resolved; it lies in [0,100] when winning ≤ resolved, and is 0 exactly when nothing is won or resolved |
| LeaderboardView.ToRow | leaderboard.js:194-207 | a row carries its entry's win rate; its estimated profit lies between 0 and a tenth of the volume, and is 0 exactly when the volume, the wins or the resolved markets are 0 |
| LeaderboardView.LoadLeaderboard | leaderboard.js:194-207 | the row addresses are exactly the creators, in order of first appearance, each row holding that creator's reference statistics and a win rate in [0,100] |
| LeaderboardView.ByPeriod | leaderboard.js:221-235 | "week" and "month" keep exactly the rows with markets in the period, carrying the period's figures; any other period leaves the rows unchanged |
| LeaderboardView.ByPeriodRows | leaderboard.js:221-235 | a row shown for a period comes from an input row, has markets in the period, and shows that period's count and volume |
| LeaderboardView.ByPeriodKeepsActive | leaderboard.js:221-235 | every row with a market in the period is shown for it |
| LeaderboardView.ByPeriodKeepsOrder | leaderboard.js:221-235 | the period filter keeps the rows' order: rows ordered by any key after taking the period's figures stay ordered by it |
| LeaderboardView.Search | leaderboard.js:238-243 | a blank search keeps every row; otherwise exactly the rows whose lower-cased address text contains the trimmed, lower-cased term are kept |
| LeaderboardView.SearchFindsAddress | leaderboard.js:238-243 | searching for an address exactly as displayed finds its row |
| LeaderboardView.SearchKeepsOrder | leaderboard.js:238-243 | the search keeps the rows' order: rows ordered by any key stay ordered by it |
| LeaderboardView.SortValue | leaderboard.js:249-267 | "markets" selects the markets created, "winrate" the win rate, "pnl" the estimated profit, and "volume", "rank" and any other key the total volume; the selected column is never negative when the row's rate and profit are not |
| LeaderboardView.DefaultSortIsVolume | leaderboard.js:262-265 | the rank key and unknown keys sort by total volume |
| LeaderboardView.SortRows | leaderboard.js:246-270 | the sorted rows are a permutation of the input; the chosen column is non-increasing for "desc" and non-decreasing otherwise |
| LeaderboardView.SortRowsKeepsTies | leaderboard.js:246-270 | rows tied on the chosen column keep their relative order |
| LeaderboardView.Rank | leaderboard.js:273-276 | the ranks are 1..n in list order |
| LeaderboardView.ApplyFiltersAndSort | leaderboard.js:219-279 | the displayed list rearranges the period-filtered, searched rows; it is ordered on the chosen column and ranked 1..n |
| Profile.ToTrade | profile.js:164-175 | a trade's outcome is YES exactly for status 1; it is pending exactly for status 0 and a win exactly by the win rule; its amount is the whole pool |
| Profile.UserMarkets | profile.js:147-159 | the user's markets are exactly the listed markets the wallet created |
| Profile.UserTrades | profile.js:164-176 | no trade is pending |
| Profile.UserMarketsInOrder | profile.js:147-159 | the user's markets are the wallet's listed markets in query order |
| Profile.TradesFollowMarkets | profile.js:164-176 | the trades are the wallet's resolved listed markets, each shown by its trade, in query order |
| Profile.TradesAreResolvedMarkets | profile.js:181-185 | there are as many trades as resolved markets of the wallet |
| Profile.LoadProfileFields | profile.js:181-189 | the trades are the wallet's resolved listed markets as trades and totalTrades is their number; totalMarkets and resolvedMarkets count the wallet's markets and its resolved ones; winningTrades counts the winning trades; the win rate is WinRate of wins over trades; totalVolume sums the yes and no pools of the wallet's markets; the estimated profit is a tenth of totalVolume |
| Profile.PoolsAreCreatorVolume | profile.js:183 | the pools of the wallet's markets, summed from the front, equal the leaderboard's volume over the markets whose creator is the wallet |
| Profile.ProfileVolumeIsCreatorVolume | profile.js:183 | the profile's total volume is the total volume the leaderboard credits to the wallet as a creator, at any clock |
| Profile.LoadProfile | profile.js:181-189 | winningTrades ≤ totalTrades = resolvedMarkets ≤ totalMarkets; totalMarkets counts the wallet's listed markets; the win rate is 0 without trades and lies in [0,100]; every trade is a win or a loss |
| Profile.ActivePositionsNonNegative | profile.js:253 | the active-positions figure, trades minus wins, is never negative |

## Left out

- Page rendering, HTML templates, tab and button wiring, `sessionStorage`, alerts and redirects are left out. They are display glue.
- Wallet connection and signing, RPC calls, and transaction assembly are left out. They are foreign I/O. The list of program accounts, the wallet key and `now` are parameters instead.
- Program-address derivation and `Keypair.generate` are left out. They rely on hashing, curve checks and randomness.
- Base58 rendering of keys is left out. Keys are compared as 32-byte sequences, which base58 preserves. The displayed text of a key is the parameter `addressText` of `LeaderboardView.Search`.
- UTF-8 encoding and decoding are left out. The question stays raw bytes. Only the text decoder's removal of a leading byte order mark is kept, because it decides whether a question counts as empty (`Catalog.HasQuestion`).
- Floating point is left out: the division by 10^9, `toFixed` and `parseFloat`. Prices, win rates and profits are exact reals, and volumes are raw units.
- `getAvatar` and the random mini-chart are left out. They are decoration.
- A pool amount of 2^53 or more is left out: `toNumber()` throws on it inside each page's outer `try` (script.js:309-310, leaderboard.js:160-161, profile.js:157-158 and 165-167), so the source shows an error in place of the whole list, leaderboard or profile. The model always renders.
- The question length prefix of the create-market payload is written with `setUint32`, which would reduce a length of 2^32 or more modulo 2^32. No JavaScript string encodes to that many bytes, so the case cannot arise; the model reports it as the error `QuestionTooLong` instead.
- MarketAccount.Decode: this is stricter than the source, which only fails when the length prefix itself cannot be read (a buffer shorter than 44 bytes). A longer buffer that is shorter than 158+L bytes yields None here. In the source it yields a record with short or undefined fields.
- MarketAccount.Decode: creation times of 2^53 or more are returned as read. The source's `toNumber` throws on them, which makes `decodeMarket` return null.
- CreateMarket.EncodeAsWritten: the liquidity input is an integer. The big-number parsing of a form string with a fraction or other non-digit text is left out.
- Leaderboard.Aggregate: the win rule compares raw pool amounts. The source compares them after dividing each by 10^9 in floating point, which can round two distinct large amounts to the same number.
- LeaderboardView.WinRate: the win rate is exact. The source rounds it to one decimal with `toFixed(1)` before it is displayed, sorted and used in the profit.
- Profile.LoadProfile: the trade amount's two-decimal text and the localized date are left out. Volumes are raw units.
- Text.Lower: only ASCII letters are lower-cased, not full Unicode case mapping. Displayed addresses are base58, which is ASCII, but the search term is free input: JavaScript lower-cases U+212A KELVIN SIGN to ASCII `k`, so a term containing it matches addresses with k or K in the source and matches nothing in the model.

## Findings

| source | as written | input that shows it | evidently intended | confidence | as-written member | corrected member |
|---|---|---|---|---|---|---|
| script.js:138-161 | the liquidity input is scaled by 10^9 and written with `toArray('le', 8)`, which writes the magnitude and drops the sign | liquidity input `-5` with any question: the payload asks to deposit 5·10^9 units, the same as for `5` | a negative input is refused, since the amount is an unsigned u64 deposit | not executed; medium, since the form may also restrict the input in markup that is not part of this model | CreateMarket.EncodeAsWritten, CreateMarket.NegativeLiquidityEncodedAsPositive | CreateMarket.EncodeCreateMarket |
