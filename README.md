# Halftime feature pipeline of an NBA final-score predictor, in Dafny

This project models the integer core of a pipeline that predicts NBA final
scores from halftime box scores. The pipeline has two halves.

- **Harvesting** (`main.py`) collects the team ids and the season's game
  ids from the statistics provider. It formats each id with two leading
  zeros and removes duplicates. It then flattens each game's halftime box
  score into one 59-cell wide row: the game id, the two tricodes, and four
  blocks of 14 stats (home starters, home team, away starters, away team).
- **Live run** (`live_boxscore.py`) picks the games at halftime from the
  live scoreboard. It extracts one wide row per game and skips every game
  whose fetch or extraction fails. It then transforms the wide table into
  the analysis table. Bench counts are derived as team total minus
  starters. The team totals are dropped. Every game becomes a home-origin
  row and an away-origin row under one column vocabulary. Halftime points
  are computed from made baskets. An inner self-join on
  `game id + team` = `game id + against` attaches the opponent's halftime
  points.

Modules, one per component:

- `Wrappers` holds `Option`.
- `Text` models `str` of a non-negative integer (`Decimal`), `int` of a digit
  string (`DecimalValue`), and ASCII `lower`.
- `Stats` holds the 13 counting categories, a count block and a stat block,
  and the wide row.
- `WideTable` holds the 59-column header and the flattening of a wide row.
- `Harvest` models `main.py`.
- `Reshape` models `transform_data`.
- `Halftime` models the live loop, the halftime filter and one polling run.

The model follows the code where a reader might expect something else:

- A join key with no match or with several matches is not reported. The
  inner merge drops an unmatched row and multiplies duplicates.
  `UnmatchedRowDropped`, `MergeSize` and `DuplicateGameMultiplies` show this.
- A negative bench count is not flagged, so counts are `int`.
  `BenchNonNegative` says exactly when they are non-negative.
- `home` is the integer 1 or 0, not a boolean.
- The live loop swallows every exception, not only missing-field errors.
- A polling run whose games are at halftime but whose extractions all fail
  does not produce an empty analysis. The empty table makes the key
  computation in `transform_data` (`live_boxscore.py:112`) fail, and
  nothing catches that. `RunAtHalftime` ends such a run with
  `EmptyTableFailure`.
- Any GAME_ID of the game finder's table that `int` rejects aborts the whole
  id collection, because the conversion (`main.py:25`) runs before the
  filter. `GameIdsFor` and `FindAllGameIds` therefore require every
  GAME_ID to be a digit string.

The game id in the wide table is a natural number. The harvest reads its ids
from a CSV file (`main.py:48`). The live table is written to CSV and read
back before it is transformed (`live_boxscore.py:45`, `live_boxscore.py:55`).
Either way, `read_csv` turns a "00"-prefixed id into an integer. The join key
is that integer printed in decimal, followed by the team code.

## Model

| member | source | states |
|---|---|---|
| Harvest.FindAllTeamIds | main.py:9-15 | exactly one id per team, in the order the teams are listed |
| Harvest.SeasonType | main.py:24-26 | the season type is the single first character of the printed season id |
| Harvest.SeasonYearSuffix | main.py:24-27 | the season year is the last four characters of the printed season id (all of it when shorter), and the id ends with it |
| Harvest.SeasonYearValue | main.py:24-27 | the season year, read as a number, is the season id modulo 10^4 |
| Harvest.SeasonIdExample | main.py:24-27 | season id 22023 has type "2" and year "2023" |
| Harvest.KeptIdsMembers | main.py:30-32 | an id is among the formatted kept ids exactly when some row with a listed team, the season year and an id value below 10^9 formats to it |
| Harvest.Unique | main.py:33 | the de-duplicated ids have no repeats and the same members as the input |
| Harvest.UniqueKeepsFirstAppearanceOrder | main.py:33 | de-duplicating a prefix gives a prefix of the de-duplicated whole, so ids keep first-appearance order |
| Harvest.GameIdsFor | main.py:24-33 | the season's ids have no duplicates, and x is returned exactly when some kept row formats to x ("00" + str(int(GAME_ID))) |
| Harvest.GameIdsFirstAppearanceOrder | main.py:24-33 | the ids of the first k rows of the table are a prefix of the ids of the whole table, so ids come out in order of first appearance |
| Harvest.GameIdsBounded | main.py:30-32 | every returned id is "00" followed by a numeral of one to nine digits without leading zero |
| Harvest.StandardIdRoundTrip | main.py:25-32 | a provider id of the form "00" + canonical numeral comes out of int-then-"00"-prefixing unchanged |
| Harvest.FindAllGameIds | main.py:17-35 | the result is `GameIdsFor` of the listed teams' ids, in list order: ids in order of first appearance with no duplicates, and x is returned exactly when some row of a listed team, the season year and an id below the bound formats to x |
| Harvest.BoxscoreAtHalftime | main.py:37-93 | one 59-cell row per id in file order; the row holds the raw id and the fetched tricodes, reads back as the fetched box score, and the fetch used "00" + str(id) |
| WideTable.HeaderLayout | main.py:38-45 | the header has 59 names: GAME_ID, home_team, away_team, then the block prefix plus field name of every stat column |
| WideTable.BlockCellsAt | main.py:65-70 | within a block the fields come in the order minutes, FGM, FGA, 3PM, 3PA, FTM, FTA, OREB, DREB, AST, STL, BLK, TO, FOUL |
| WideTable.Flatten | main.py:65-88 | the flattened row has 59 cells: id, home tricode, away tricode, then each block's field k in the column the header names for it |
| WideTable.FlattenRoundTrip | main.py:38-45 | reading a flattened row back by column gives the wide row again |
| WideTable.UnflattenInverse | main.py:38-45 | every 59 cells that read back as a wide row are that row's flattening |
| Stats.Sub | live_boxscore.py:57-83 | each bench category is the team count minus the starter count |
| Stats.SubAddRoundTrip | live_boxscore.py:57-83 | starters plus (total minus starters) is the total again |
| Stats.SubNonNegative | live_boxscore.py:57-83 | a difference has no negative category exactly when the total dominates the part |
| Reshape.DeriveBench | live_boxscore.py:56-85 | `hb_`/`ab_` is team minus starters for each of the 13 categories, the starter blocks and identity are kept, and no team-total block remains |
| Reshape.BenchRestoresTotals | live_boxscore.py:57-85 | starters plus bench give back the dropped home and away team totals |
| Reshape.BenchNonNegative | live_boxscore.py:57-83 | the bench is non-negative exactly when team totals dominate starter totals, for home and for away |
| Reshape.Reshape | live_boxscore.py:85-106 | N games give 2N rows; row i is the home-origin row of game i after bench derivation (team = home, against = away, `s_`/`b_` from `hs_`/`hb_`), row N+i the away-origin row of game i (team and against swapped, from `as_`/`ab_`) |
| Reshape.PtsHtIsTeamPoints | live_boxscore.py:108-110 | halftime points equal 2 * FGM total + 3PM total + FTM total |
| Reshape.PtsHtExample | live_boxscore.py:108-110 | FGM 10+5, 3PM 2+1, FTM 3+2 give 38 points |
| Reshape.KeyMatch | live_boxscore.py:112-113 | for equal-length team codes, the `against` key of one row equals the `team` key of another exactly when they share the game and the codes match |
| Reshape.MatchesEmpty | live_boxscore.py:115-117 | a left row yields no merged row exactly when no right row's `against` key equals its `team` key |
| Reshape.MatchesUnique | live_boxscore.py:115-117 | a left row with exactly one matching right row yields exactly one merged row, carrying that row's halftime points |
| Reshape.MatchesSound | live_boxscore.py:115-121 | every merged row of a left row joins it with a right row whose key matches |
| Reshape.MergeSound | live_boxscore.py:115-121 | every merged row joins some left row with some matching right row, taking that row's halftime points as the opponent's |
| Reshape.MatchesAppend | live_boxscore.py:115-117 | matching against a concatenation of right rows matches each part in turn |
| Reshape.MatchesCount | live_boxscore.py:115-117 | a left row yields exactly as many merged rows as there are right rows whose `against` key equals its `team` key |
| Reshape.MatchesComplete | live_boxscore.py:115-121 | every right row whose key matches a left row's yields a merged row of that pair |
| Reshape.MergeComplete | live_boxscore.py:115-121 | every matching (left row, right row) pair appears in the merge, with the right row's halftime points as the opponent's |
| Reshape.MergeSize | live_boxscore.py:115-117 | the merge has one row per matching (left row, right row) pair, so duplicate keys multiply rows |
| Reshape.MergeAppend | live_boxscore.py:115-117 | the merge of a concatenation is the concatenation of the merges, so left order is kept |
| Reshape.UnmatchedRowDropped | live_boxscore.py:115-117 | a row no other row matches disappears from the output |
| Reshape.MergeUnique | live_boxscore.py:115-121 | when each left row has exactly one match, the output has one row per left row, in order, joined with that match |
| Reshape.ReshapeMatchesPartner | live_boxscore.py:87-117 | in a well-formed batch a reshaped row matches exactly the other row of the same game |
| Reshape.TransformPairsPartners | live_boxscore.py:49-126 | in a well-formed batch the output has 2N rows; row i joins game i's home row with its away row, and row N+i joins the away row with the home row |
| Reshape.TransformWellFormed | live_boxscore.py:49-126 | well-formed batch: row i is the home team (home = 1) and row N+i the away team (home = 0); each has its game id, starters, bench (total minus starters) and halftime points; each row's `PTS_ht_opp` is the other row's `PTS_ht` |
| Reshape.TransformSound | live_boxscore.py:112-121 | with three-letter codes, every output row joins a row with a row of the same game whose `against` is its `team`, and its `PTS_ht_opp` is that row's `PTS_ht` |
| Reshape.DuplicateGameMultiplies | live_boxscore.py:115-117 | a game listed twice gives 8 rows, not 4: duplicates multiply |
| Halftime.HalfStatusIgnoresCase | live_boxscore.py:173 | the status test accepts exactly "half" with each letter in either case |
| Halftime.HalftimeIdsAppend | live_boxscore.py:171-174 | selection distributes over concatenation, so selected ids keep scoreboard order |
| Halftime.HalftimeIdsMembers | live_boxscore.py:171-174 | an id is selected exactly when a game with that id is at the end of period 2 or has status "half" |
| Halftime.HalftimeIdsEmpty | live_boxscore.py:171-176 | nothing is selected exactly when no game is at halftime |
| Halftime.GameIdsAtHalftime | live_boxscore.py:167-174 | the loop collects exactly the selected ids in scoreboard order |
| Halftime.ExtractedAppend | live_boxscore.py:37-43 | extraction distributes over concatenation of id lists |
| Halftime.FailedIdSkipped | live_boxscore.py:37-43 | an id whose extraction fails contributes no row and the ids after it still do |
| Halftime.ExtractedInOrder | live_boxscore.py:37-43 | at most one row per id; one per id exactly when every extraction succeeds; every row is the extraction of some id |
| Halftime.LiveBoxscore | live_boxscore.py:27-47 | the loop's table is the successful extractions in id order |
| Halftime.RunAtHalftime | live_boxscore.py:167-180 | nothing runs exactly when no game is at halftime; the run fails exactly when games are at halftime but no row is extracted; otherwise the analysis is the transform of the extracted rows of the selected ids |
| Text.Decimal | main.py:32 | `str(n)` is a canonical numeral whose first digit is 0 only for 0 |
| Text.DecimalRoundTrip | main.py:25-32 | `int(str(n)) == n` |
| Text.DecimalInjective | live_boxscore.py:112-113 | different ids print differently |
| Text.LeadingZeroIgnored | main.py:25 | a leading zero does not change what `int` reads |
| Text.CanonicalRoundTrip | main.py:25-32 | `str(int(s)) == s` for a numeral without leading zero |
| Text.DecimalLength | main.py:30 | a number below 10^k prints with at most k digits |

## Left out

- All calls to the statistics provider (team list, game finder, traditional box score, live box score, live scoreboard) and the decoding of their JSON. Their results are inputs: sequences and decoded records.
- The live extraction of one game's row (`create_boxscore_df`) is not part of this model. It is an input function that returns a wide row or nothing. Nothing comes back when the fetch, the extraction or the row append raises. Summing per-player stats and parsing minutes strings are left out with it.
- CSV writing and reading between the steps. Tables are in-memory sequences. The wide row holds the integer id the table has after it is read back.
- `predict_with_model`, `fit_model` and `send_email`: floating-point logarithms, a pickled least-squares model, SMTP and environment variables.
- The date-derived file names and the call to `get_gameids_today` at import time. These are configuration and process triggering.
- Minutes are carried as a `real` and never computed with. Their upstream encoding is outside the model.
- Python's `lower` is modelled on ASCII letters only. It is only compared with "half", which no other character lowers into.
- `int` of a game id is modelled on strings of decimal digits only; signs, blanks and underscores, which `int` also accepts, are not modelled. `GameIdsFor` and `FindAllGameIds` require every GAME_ID to be such a string, because any other id makes `int` raise and aborts the collection.
- Harvest.BoxscoreAtHalftime: the source does not catch a failed fetch, so one failure aborts the whole harvest. The model's fetch is a total function, so it does not model that abort.
- The column order of the long and analysis tables is not modelled. Only their field sets are: the record types have no team-total or key fields.
- Merge order with duplicate keys: the model takes each left row in order and lists its matches in right order (pandas keeps left-key order). This is exact when keys are unique, which `TransformWellFormed` assumes.
