# NBA dashboard: the data pipeline behind the callbacks

A Dafny model of the data pipeline of the NBA 2013 statistics dashboard
(`myDashboard.py`). The dashboard loads one table of player-seasons. At load
time it adds an `age_group` column: `rookie` below age 24, `senior` otherwise.
Three callbacks then derive what the pages show:

- `update_page_content` (players view). The dropdown value selects the rows of
  one age group, the five players with the most points, or nothing.
- `update_graph` (teams view). The slider index is mapped to a position code.
  The rows at that position are grouped by team and the chosen indicator
  (`ast` or `orb`) is summed per team. The five largest sums are kept.
- `display_page` (router). The URL path selects the index page, the players
  page or the teams page.

The model keeps the rows as a sequence in frame order and leaves out every
widget. It has six modules, one per file:

- `Wrappers` (`wrappers.dfy`): `Option` for a value Dash may send as `None`,
  and `Result` for a callback that raises `KeyError`.
- `StrOrder` (`str_order.dfy`): Python's `<` on `str`, which is code-point
  lexicographic order. pandas sorts group keys with it. It is proved
  irreflexive, transitive and total.
- `Query` (`query.dfy`): the boolean-mask filter `df[mask]`, and
  `nlargest(n, column)` with its default `keep='first'`. `nlargest` is written
  as a stable descending insertion sort followed by taking the first `n` rows.
- `NbaData` (`nba_data.dfy`): the record, the loaded row with its
  `age_group` cell, and the age classification.
- `TeamGroups` (`team_groups.dfy`): `groupby('bref_team_id')[indicator].sum().reset_index()`.
  Each row is added to a list kept in strictly ascending team order, the order
  pandas gives group keys.
- `Dashboard` (`dashboard.dfy`): the three callbacks, the position map, the
  slider marks, and the links each page carries.

## Model

| member | source | states |
|---|---|---|
| `NbaData.WithAgeGroups` | myDashboard.py:13 | Each loaded row keeps its record in file order. Its age group is `rookie` exactly when age < 24 and `senior` exactly when age >= 24. |
| `NbaData.AgeGroupsPartition` | myDashboard.py:13 | Every loaded row is in one of the two age groups. |
| `Query.FilterSpec` | myDashboard.py:60 | The boolean-mask filter keeps only rows that match. It keeps every copy of every matching row, keeps frame order (a subsequence), and gives an empty frame when nothing matches. |
| `Query.FilterPermutation` | myDashboard.py:111 | Filtering two orderings of the same rows keeps the same multiset of rows. |
| `Query.SortDescSpec` | myDashboard.py:63 | The sort behind `nlargest` is a permutation of its input and is in descending key order. For every key value, the rows with that key keep their frame order (stable). |
| `Query.NLargest` | myDashboard.py:63 | `nlargest(n)` returns min(n, rows) rows, in descending key order, taken from the input (a sub-multiset). No row left out has a larger key than a kept row. For each key value, the kept rows with that key are the earliest such rows, in frame order (`keep='first'`). |
| `Query.NLargestIdempotent` | myDashboard.py:63 | Applying `nlargest(n)` to its own result gives that result back. |
| `TeamGroups.GroupSum` | myDashboard.py:112 | The grouped frame has strictly ascending team keys, so each team appears once. Its keys are exactly the distinct teams among the rows. The value of every team is the sum of the indicator over that team's rows. |
| `TeamGroups.GroupSumEntries` | myDashboard.py:112 | Each entry of the grouped frame holds the indicator summed over the rows of its own team. |
| `TeamGroups.TeamTotalPermutation` | myDashboard.py:112 | A team's sum is the same for any ordering of the rows. |
| `TeamGroups.GroupedUnique` | myDashboard.py:112 | Two grouped frames with the same keys and the same value for each key are equal. Key order leaves no choice. |
| `TeamGroups.GroupSumPermutation` | myDashboard.py:112 | Permuting the rows leaves the whole grouped frame unchanged. |
| `Dashboard.UpdatePageContent` | myDashboard.py:58-76 | `rookie` or `senior` gives a table. It holds exactly the rows of that age group, each copy, in frame order. `top_players` gives the rows behind the cards: min(5, rows) rows taken from the frame, by non-increasing points, none left out with more points, ties to the earlier row. Any other value, `None` included, gives no content. |
| `Dashboard.AgeGroupTablesPartition` | myDashboard.py:13-60 | On the loaded frame, the rookie table and the senior table together hold every row exactly once. |
| `Dashboard.ExampleRookieTable` | myDashboard.py:59-60 | The example frame has ages 22, 30, 20 and points 10, 25, 5. Its rookie table is the first and third rows, in that order. |
| `Dashboard.ExampleTopPlayers` | myDashboard.py:62-63 | On the same frame, the top-5 cards show all three players: the 30-year-old (25 points) first, then 10 points, then 5. |
| `Dashboard.PosMapMatchesSlider` | myDashboard.py:110 | The position map is defined on exactly the slider indices 0..4 (the marks at line 94) and is one-to-one. At each index it gives the code that the chart title (line 114) pairs with the slider's label there: PG, PF, C, SF, SG. |
| `Dashboard.TeamChart` | myDashboard.py:111-113 | The chart has min(5, teams at the position) bars, in non-increasing total order. Each bar is a team present at that position, carrying that team's sum. No team left out has a larger sum than a kept one. Equal totals are in ascending team order. A team left out with the same total as a kept team sorts after that team. |
| `Dashboard.UpdateGraph` | myDashboard.py:109-113 | A slider value outside the position map fails with `UnknownPosition` (the `KeyError` at line 111). Otherwise an indicator other than `ast`/`orb` fails with `UnknownIndicator`. Otherwise the result is the team chart of the rows whose position is the mapped code; a mapped slider value with `ast` or `orb` always succeeds with that chart. |
| `Dashboard.UpdateGraphPermutation` | myDashboard.py:109-113 | The teams view gives the same chart, or the same error, for any ordering of the frame's rows. |
| `Dashboard.DisplayPage` | myDashboard.py:122-128 | `/page-1` gives the players page and `/page-2` the teams page, in both directions of the if-and-only-if. Every other path, `None` included, gives the index page. |
| `Dashboard.LinksFollowRouter` | myDashboard.py:122-128 | The router agrees with the pages' links (lines 29, 31, 51 and 101). The index page's two buttons reach the players and teams pages. The back button on each of those reaches the index page. The root path and no path show the index page. |

## Left out

- Loading the CSV with `pd.read_csv` (line 12) is file I/O. The model takes the records as an input sequence, and a load failure is not modelled.
- The Dash app, the layouts, the stylesheets, `dcc.Location` and the callback registration are framework wiring (lines 16-53, 81-107, 119-120). Only the link targets of the pages' buttons are kept, as `Dashboard.LinksOn`.
- The Bootstrap cards and the `DataTable` (lines 61, 64-76) are rendering. The `iterrows` loop that builds the card list is left out with them. The model returns the rows they display.
- The Plotly bar figure and its title (lines 114-115) are rendering. Only the title's position legend is kept, as `Dashboard.TitleLegend`.
- `app.run_server` (lines 132-133) is server start-up.
- Missing values (NaN ages, points or team keys) and floating-point columns are not modelled. Stats are natural numbers and ages are integers.
- `Dashboard.ParseIndicator`: any indicator other than `ast` or `orb` is treated as a missing column. pandas would also sum other numeric columns of the CSV if such a value arrived, but the dropdown only offers these two.
- `Dashboard.UpdateGraph`: a `KeyError` raised by the callback is modelled as a `Failure` value. What Dash then does with the page (it keeps the previous output) is not modelled. The code does not catch the error and render an empty chart, and the model follows the code.
- The router has no `/compare` route: that path gives the index page. An unknown indicator column is not recovered from: it raises `KeyError`, with no empty chart. The model follows this file.
