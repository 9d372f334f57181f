/** The three callbacks of the NBA dashboard, with the widgets they render
    reduced to the rows that feed them: the players view (`update_page_content`),
    the teams view (`update_graph`) and the page router (`display_page`). */
module Dashboard {
  import opened Wrappers
  import opened StrOrder
  import opened Query
  import opened NbaData
  import opened TeamGroups

  // ---------------------------------------------------------------------------
  // Players view: the dropdown picks an age group table or the top-5 cards.

  /** What the players view shows: the table of an age group, the players
      behind the top-5 cards, or nothing (the callback returns `None`). */
  datatype PlayersContent = Table(rows: seq<Row>) | Cards(top: seq<Row>) | NoContent

  const TopPlayers: string := "top_players"

  function Pts(r: Row): int
  {
    r.record.pts
  }

  function InAgeGroup(group: string): Row -> bool
  {
    (r: Row) => r.ageGroup == group
  }

  function UpdatePageContent(value: Option<string>, df: seq<Row>): (c: PlayersContent)
    ensures c.Table? <==> value == Some(Rookie) || value == Some(Senior)
    ensures c.Cards? <==> value == Some(TopPlayers)
    ensures c.NoContent? <==> value != Some(Rookie) && value != Some(Senior) && value != Some(TopPlayers)
    ensures c.Table? ==> forall x | x in c.rows :: Some(x.ageGroup) == value
    ensures c.Table? ==> forall x | x in df ::
      multiset(c.rows)[x] == if Some(x.ageGroup) == value then multiset(df)[x] else 0
    ensures c.Table? ==> IsSubsequence(c.rows, df)
    ensures c.Cards? ==> |c.top| == Min(5, |df|) && Descending(c.top, Pts)
    ensures c.Cards? ==> multiset(c.top) <= multiset(df)
    ensures c.Cards? ==> forall x, y :: x in multiset(df) - multiset(c.top) && y in c.top ==> Pts(x) <= Pts(y)
    ensures c.Cards? ==> forall v :: WithKey(c.top, Pts, v) <= WithKey(df, Pts, v)
  {
    match value
    case Some(v) =>
      if v == Rookie || v == Senior then
        FilterSpec(df, InAgeGroup(v));
        Table(Filter(df, InAgeGroup(v)))
      else if v == TopPlayers then Cards(NLargest(5, df, Pts))
      else NoContent
    case None => NoContent
  }

  /** On the loaded frame the rookie table and the senior table split the
      rows between them: every row is in exactly one of the two. */
  lemma AgeGroupTablesPartition(records: seq<Record>)
    ensures var df := WithAgeGroups(records);
      multiset(UpdatePageContent(Some(Rookie), df).rows) + multiset(UpdatePageContent(Some(Senior), df).rows)
        == multiset(df)
  {
    var df := WithAgeGroups(records);
    var rookies := UpdatePageContent(Some(Rookie), df).rows;
    var seniors := UpdatePageContent(Some(Senior), df).rows;
    AgeGroupsPartition(records);
    forall x
      ensures (multiset(rookies) + multiset(seniors))[x] == multiset(df)[x]
    {
      if x !in df {
        assert multiset(rookies)[x] == 0 by {
          if x in rookies {
            FilterSpec(df, InAgeGroup(Rookie));
          }
        }
        assert multiset(seniors)[x] == 0 by {
          if x in seniors {
            FilterSpec(df, InAgeGroup(Senior));
          }
        }
      }
    }
  }

  /** A three-row frame: ages 22, 30 and 20 with 10, 25 and 5 points. */
  function ExampleFrame(): seq<Row>
  {
    WithAgeGroups([
      Record("A", 22, "PG", "AAA", 10, 0, 0),
      Record("B", 30, "C", "BBB", 25, 0, 0),
      Record("C", 20, "SF", "CCC", 5, 0, 0)])
  }

  /** On the example frame the rookie table holds the first and last rows. */
  lemma ExampleRookieTable()
    ensures var df := ExampleFrame();
      UpdatePageContent(Some(Rookie), df) == Table([df[0], df[2]])
  {
  }

  /** On the example frame the top-5 cards show all three players, the
      30-year-old first. */
  lemma ExampleTopPlayers()
    ensures var df := ExampleFrame();
      UpdatePageContent(Some(TopPlayers), df) == Cards([df[1], df[0], df[2]])
  {
    var df := ExampleFrame();
    assert Pts(df[0]) == 10 && Pts(df[1]) == 25 && Pts(df[2]) == 5;
    assert df[2..][1..] == [];
    assert SortDesc(df[2..], Pts) == [df[2]];
    assert df[1..][1..] == df[2..];
    assert SortDesc(df[1..], Pts) == [df[1], df[2]];
    assert InsertDesc(df[0], [df[2]], Pts) == [df[0], df[2]];
    assert InsertDesc(df[0], [df[1], df[2]], Pts) == [df[1]] + InsertDesc(df[0], [df[2]], Pts);
    assert SortDesc(df, Pts) == [df[1], df[0], df[2]];
  }

  // ---------------------------------------------------------------------------
  // Teams view: the slider picks a position, the dropdown an indicator.

  /** The slider's index-to-position table. */
  function PosMap(): map<int, string>
  {
    map[0 := "PG", 1 := "PF", 2 := "C", 3 := "SF", 4 := "SG"]
  }

  /** The labels the slider shows at each index. */
  function SliderMarks(): map<int, string>
  {
    map[0 := "Point Guard", 1 := "Power Forward", 2 := "Center", 3 := "Small Forward", 4 := "Shooting Guard"]
  }

  /** The legend of the chart title: each position's name and its code. */
  function TitleLegend(): map<string, string>
  {
    map["Point Guard" := "PG", "Power Forward" := "PF", "Center" := "C",
        "Small Forward" := "SF", "Shooting Guard" := "SG"]
  }

  /** The position map is defined on exactly the slider's indices 0 to 4, is
      one-to-one, and gives at each index the code the chart title pairs with
      the slider's label there. */
  lemma PosMapMatchesSlider()
    ensures PosMap().Keys == SliderMarks().Keys == {0, 1, 2, 3, 4}
    ensures forall a, b | a in PosMap() && b in PosMap() && a != b :: PosMap()[a] != PosMap()[b]
    ensures forall k | k in PosMap() :: SliderMarks()[k] in TitleLegend() && PosMap()[k] == TitleLegend()[SliderMarks()[k]]
  {
  }

  /** The `KeyError`s the callback raises: a slider value missing from the
      position map, or an indicator that is not a column of the frame. */
  datatype GraphError = UnknownPosition(pos: int) | UnknownIndicator(value: Option<string>)

  function ParseIndicator(value: Option<string>): Option<Indicator>
  {
    if value == Some("ast") then Some(Ast)
    else if value == Some("orb") then Some(Orb)
    else None
  }

  function AtPosition(code: string): Row -> bool
  {
    (r: Row) => r.record.pos == code
  }

  /** The bars of the teams chart: the grouped frame of the rows `atPos`
      cut to its 5 largest totals. Teams come from those rows, each with its
      sum; ties go to the team whose key sorts first. */
  function TeamChart(atPos: seq<Row>, ind: Indicator): (top: seq<TeamSum>)
    ensures |top| == Min(5, |TeamsOf(atPos)|)
    ensures Descending(top, Total)
    ensures forall t | t in top :: t.team in TeamsOf(atPos) && t.total == TeamTotal(atPos, t.team, ind)
    ensures forall team, t | team in TeamsOf(atPos) && (forall u | u in top :: u.team != team) && t in top ::
      TeamTotal(atPos, team, ind) <= t.total
    ensures forall i, j | 0 <= i < j < |top| && top[i].total == top[j].total ::
      LexLess(top[i].team, top[j].team)
    ensures forall team, t | team in TeamsOf(atPos) && (forall u | u in top :: u.team != team) && t in top
      && TeamTotal(atPos, team, ind) == t.total :: LexLess(t.team, team)
  {
    var g := GroupSum(atPos, ind);
    var top := NLargest(5, g, Total);
    KeysCardinality(g);
    ChartEntries(atPos, ind, top);
    ChartTies(g, top);
    ChartLeftOut(atPos, ind, top);
    top
  }

  lemma ChartEntries(atPos: seq<Row>, ind: Indicator, top: seq<TeamSum>)
    requires multiset(top) <= multiset(GroupSum(atPos, ind))
    ensures forall t | t in top :: t.team in TeamsOf(atPos) && t.total == TeamTotal(atPos, t.team, ind)
  {
    var g := GroupSum(atPos, ind);
    GroupSumEntries(atPos, ind);
    forall t | t in top
      ensures t.team in TeamsOf(atPos) && t.total == TeamTotal(atPos, t.team, ind)
    {
      assert t in multiset(top);
      var k :| 0 <= k < |g| && g[k] == t;
      assert t.team in Keys(g);
    }
  }

  lemma ChartTies(g: seq<TeamSum>, top: seq<TeamSum>)
    requires StrictlyAscending(g)
    requires forall v :: WithKey(top, Total, v) <= WithKey(g, Total, v)
    ensures forall i, j | 0 <= i < j < |top| && top[i].total == top[j].total ::
      LexLess(top[i].team, top[j].team)
  {
    forall i, j | 0 <= i < j < |top| && top[i].total == top[j].total
      ensures LexLess(top[i].team, top[j].team)
    {
      KeptTiesAscending(g, top, i, j);
    }
  }

  lemma ChartLeftOut(atPos: seq<Row>, ind: Indicator, top: seq<TeamSum>)
    requires var g := GroupSum(atPos, ind);
      && (forall x, y :: x in multiset(g) - multiset(top) && y in top ==> Total(x) <= Total(y))
      && (forall v :: WithKey(top, Total, v) <= WithKey(g, Total, v))
    ensures forall team, t | team in TeamsOf(atPos) && (forall u | u in top :: u.team != team) && t in top ::
      TeamTotal(atPos, team, ind) <= t.total
    ensures forall team, t | team in TeamsOf(atPos) && (forall u | u in top :: u.team != team) && t in top
      && TeamTotal(atPos, team, ind) == t.total :: LexLess(t.team, team)
  {
    var g := GroupSum(atPos, ind);
    GroupSumEntries(atPos, ind);
    forall team, t | team in TeamsOf(atPos) && (forall u | u in top :: u.team != team) && t in top
      ensures TeamTotal(atPos, team, ind) <= t.total
      ensures TeamTotal(atPos, team, ind) == t.total ==> LexLess(t.team, team)
    {
      assert team in Keys(g);
      var e :| e in g && e.team == team;
      var k :| 0 <= k < |g| && g[k] == e;
      assert e !in top;
      assert e in multiset(g) - multiset(top);
      assert Total(e) <= Total(t);
      assert e.total == TeamTotal(atPos, team, ind) by {
        assert g[k].total == TeamTotal(atPos, g[k].team, ind);
      }
      if e.total == t.total {
        LeftOutTieAfter(g, top, e, t);
      }
    }
  }

  /** Ties among the kept teams are in ascending key order, as in the grouped frame. */
  lemma KeptTiesAscending(g: seq<TeamSum>, top: seq<TeamSum>, i: nat, j: nat)
    requires StrictlyAscending(g)
    requires forall v :: WithKey(top, Total, v) <= WithKey(g, Total, v)
    requires i < j < |top| && top[i].total == top[j].total
    ensures LexLess(top[i].team, top[j].team)
  {
    var v := top[i].total;
    var p := KeyIs(Total, v);
    var kept, all := Filter(top, p), Filter(g, p);
    assert kept <= all by {
      assert WithKey(top, Total, v) <= WithKey(g, Total, v);
    }
    var i', j' := FilterIndices(top, p, i, j);
    FilterAscending(g, p);
    assert kept[i'] == all[i'] && kept[j'] == all[j'];
  }

  /** A team left out with the same total as a kept one sorts after it. */
  lemma LeftOutTieAfter(g: seq<TeamSum>, top: seq<TeamSum>, e: TeamSum, t: TeamSum)
    requires StrictlyAscending(g)
    requires forall v :: WithKey(top, Total, v) <= WithKey(g, Total, v)
    requires e in g && e !in top && t in top && e.total == t.total
    ensures LexLess(t.team, e.team)
  {
    var v := t.total;
    var p := KeyIs(Total, v);
    var kept, all := Filter(top, p), Filter(g, p);
    assert kept <= all by {
      assert WithKey(top, Total, v) <= WithKey(g, Total, v);
    }
    var ti :| 0 <= ti < |top| && top[ti] == t;
    var ki := FilterIndex(top, p, ti);
    var ei :| 0 <= ei < |g| && g[ei] == e;
    var ai := FilterIndex(g, p, ei);
    FilterSpec(top, p);
    forall k | 0 <= k < |kept|
      ensures all[k] != e
    {
      assert all[k] == kept[k];
      assert kept[k] in multiset(top);
    }
    assert ki < |kept| <= ai;
    FilterAscending(g, p);
    assert all[ki] == t && all[ai] == e;
  }

  function UpdateGraph(indicator: Option<string>, pos: int, df: seq<Row>): (r: Result<seq<TeamSum>, GraphError>)
    ensures r == Failure(UnknownPosition(pos)) <==> pos !in PosMap()
    ensures r == Failure(UnknownIndicator(indicator)) <==> pos in PosMap() && indicator != Some("ast") && indicator != Some("orb")
    ensures r.Success? ==>
      && pos in PosMap() && ParseIndicator(indicator).Some?
      && r.value == TeamChart(Filter(df, AtPosition(PosMap()[pos])), ParseIndicator(indicator).value)
    ensures pos in PosMap() && (indicator == Some("ast") || indicator == Some("orb")) ==>
      r == Success(TeamChart(Filter(df, AtPosition(PosMap()[pos])), ParseIndicator(indicator).value))
  {
    if pos !in PosMap() then Failure(UnknownPosition(pos))
    else match ParseIndicator(indicator)
      case None => Failure(UnknownIndicator(indicator))
      case Some(ind) => Success(TeamChart(Filter(df, AtPosition(PosMap()[pos])), ind))
  }

  /** The teams chart depends on which rows the frame holds, not on their order. */
  lemma UpdateGraphPermutation(indicator: Option<string>, pos: int, df: seq<Row>, df': seq<Row>)
    requires multiset(df) == multiset(df')
    ensures UpdateGraph(indicator, pos, df) == UpdateGraph(indicator, pos, df')
  {
    if pos in PosMap() && ParseIndicator(indicator).Some? {
      var p := AtPosition(PosMap()[pos]);
      FilterPermutation(df, df', p);
      GroupSumPermutation(Filter(df, p), Filter(df', p), ParseIndicator(indicator).value);
    }
  }

  // ---------------------------------------------------------------------------
  // Router: the URL path selects the page.

  datatype Page = IndexPage | PlayersPage | TeamsPage

  function DisplayPage(pathname: Option<string>): (p: Page)
    ensures p == PlayersPage <==> pathname == Some("/page-1")
    ensures p == TeamsPage <==> pathname == Some("/page-2")
    ensures p == IndexPage <==> pathname != Some("/page-1") && pathname != Some("/page-2")
  {
    if pathname == Some("/page-1") then PlayersPage
    else if pathname == Some("/page-2") then TeamsPage
    else IndexPage
  }

  /** The links each page's buttons lead to. */
  function LinksOn(p: Page): seq<string>
  {
    match p
    case IndexPage => ["/page-1", "/page-2"]
    case PlayersPage => ["/"]
    case TeamsPage => ["/"]
  }

  /** The router and the pages' links agree: the index page's buttons open
      the players view and the teams view, and each of those views links back
      to the index page, which is also what the root path and no path show. */
  lemma LinksFollowRouter()
    ensures DisplayPage(None) == IndexPage && DisplayPage(Some("/")) == IndexPage
    ensures (set h | h in LinksOn(IndexPage) :: DisplayPage(Some(h))) == {PlayersPage, TeamsPage}
    ensures forall p, h | p != IndexPage && h in LinksOn(p) :: DisplayPage(Some(h)) == IndexPage
  {
  }
}
