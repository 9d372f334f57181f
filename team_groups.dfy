/** `frame.groupby('bref_team_id')[indicator].sum().reset_index()`: one row
    per team, the teams in ascending key order, each carrying the sum of the
    indicator column over that team's rows. */
module TeamGroups {
  import opened StrOrder
  import opened NbaData
  import opened Query

  /** The indicator columns the teams view offers: assists and offensive rebounds. */
  datatype Indicator = Ast | Orb

  function StatOf(r: Record, ind: Indicator): nat
  {
    match ind
    case Ast => r.ast
    case Orb => r.orb
  }

  /** A row of the grouped frame. */
  datatype TeamSum = TeamSum(team: string, total: nat)

  function Total(t: TeamSum): int
  {
    t.total
  }

  /** The sum of the indicator over the rows of `team`: the reference
      definition of a group's value. */
  function TeamTotal(rows: seq<Row>, team: string, ind: Indicator): nat
  {
    if rows == [] then 0
    else
      var own := if rows[0].record.team == team then StatOf(rows[0].record, ind) else 0;
      own + TeamTotal(rows[1..], team, ind)
  }

  /** The distinct team keys present in the rows. */
  function TeamsOf(rows: seq<Row>): set<string>
  {
    set r | r in rows :: r.record.team
  }

  function Keys(g: seq<TeamSum>): set<string>
  {
    set t | t in g :: t.team
  }

  /** Team keys strictly increase, so each key appears once. */
  predicate StrictlyAscending(g: seq<TeamSum>)
  {
    forall i, j :: 0 <= i < j < |g| ==> LexLess(g[i].team, g[j].team)
  }

  /** The value `g` gives a key: the sum of its entries with that key. */
  function TotalFor(g: seq<TeamSum>, team: string): nat
  {
    if g == [] then 0
    else
      var own := if g[0].team == team then g[0].total else 0;
      own + TotalFor(g[1..], team)
  }

  /** Adds `v` to the group of `team`, opening that group at its place in key
      order when it is new. */
  function AddTo(g: seq<TeamSum>, team: string, v: nat): seq<TeamSum>
  {
    if g == [] then [TeamSum(team, v)]
    else if g[0].team == team then [TeamSum(team, g[0].total + v)] + g[1..]
    else if LexLess(team, g[0].team) then [TeamSum(team, v)] + g
    else [g[0]] + AddTo(g[1..], team, v)
  }

  lemma {:induction false} AddToTotals(g: seq<TeamSum>, team: string, v: nat)
    ensures forall k :: TotalFor(AddTo(g, team, v), k) == TotalFor(g, k) + (if k == team then v else 0)
  {
    if g != [] && g[0].team != team && !LexLess(team, g[0].team) {
      AddToTotals(g[1..], team, v);
    }
  }

  lemma {:induction false} AddToKeys(g: seq<TeamSum>, team: string, v: nat)
    ensures Keys(AddTo(g, team, v)) == Keys(g) + {team}
  {
    var r := AddTo(g, team, v);
    if g == [] {
    } else if g[0].team == team {
      assert g == [g[0]] + g[1..];
      assert Keys(r) == {team} + Keys(g[1..]);
      assert Keys(g) == {g[0].team} + Keys(g[1..]);
    } else if LexLess(team, g[0].team) {
      assert Keys(r) == {team} + Keys(g);
    } else {
      assert g == [g[0]] + g[1..];
      AddToKeys(g[1..], team, v);
      assert Keys(r) == {g[0].team} + Keys(AddTo(g[1..], team, v));
      assert Keys(g) == {g[0].team} + Keys(g[1..]);
    }
  }

  /** Putting a key below all the keys of an ascending frame in front keeps it ascending. */
  lemma ConsAscending(x: TeamSum, g: seq<TeamSum>)
    requires StrictlyAscending(g)
    requires forall i :: 0 <= i < |g| ==> LexLess(x.team, g[i].team)
    ensures StrictlyAscending([x] + g)
  {
    var r := [x] + g;
    forall i, j | 0 <= i < j < |r|
      ensures LexLess(r[i].team, r[j].team)
    {
      assert r[j] == g[j - 1];
      if i > 0 {
        assert r[i] == g[i - 1];
      }
    }
  }

  /** Adding a key above `low` to a frame whose keys are all above `low`
      keeps every key above `low`. */
  lemma {:induction false} AddToAbove(g: seq<TeamSum>, team: string, v: nat, low: string)
    requires forall i :: 0 <= i < |g| ==> LexLess(low, g[i].team)
    requires LexLess(low, team)
    ensures forall j :: 0 <= j < |AddTo(g, team, v)| ==> LexLess(low, AddTo(g, team, v)[j].team)
  {
    var r := AddTo(g, team, v);
    if g == [] {
    } else if g[0].team == team {
      assert forall j | 0 < j < |r| :: r[j] == g[j];
    } else if LexLess(team, g[0].team) {
      assert forall j | 0 < j < |r| :: r[j] == g[j - 1];
    } else {
      AddToAbove(g[1..], team, v, low);
      var rest := AddTo(g[1..], team, v);
      assert r == [g[0]] + rest;
      assert forall j | 0 < j < |r| :: r[j] == rest[j - 1];
    }
  }

  lemma {:induction false} AddToAscending(g: seq<TeamSum>, team: string, v: nat)
    requires StrictlyAscending(g)
    ensures StrictlyAscending(AddTo(g, team, v))
  {
    if g == [] {
    } else if g[0].team == team {
      ConsAscending(TeamSum(team, g[0].total + v), g[1..]);
    } else if LexLess(team, g[0].team) {
      forall j | 0 <= j < |g|
        ensures LexLess(team, g[j].team)
      {
        if j > 0 {
          LexTransitive(team, g[0].team, g[j].team);
        }
      }
      ConsAscending(TeamSum(team, v), g);
    } else {
      LexTotal(team, g[0].team);
      AddToAscending(g[1..], team, v);
      AddToAbove(g[1..], team, v, g[0].team);
      ConsAscending(g[0], AddTo(g[1..], team, v));
    }
  }

  /** In a grouped frame each entry's total is the value of its key. */
  lemma {:induction false} TotalForEntries(g: seq<TeamSum>)
    requires StrictlyAscending(g)
    ensures forall i :: 0 <= i < |g| ==> TotalFor(g, g[i].team) == g[i].total
  {
    if g != [] {
      TotalForEntries(g[1..]);
      TotalForAbsent(g[1..], g[0].team);
      forall i | 0 < i < |g|
        ensures TotalFor(g, g[i].team) == g[i].total
      {
        assert g[1..][i - 1] == g[i];
        LexIrreflexive(g[0].team);
      }
    }
  }

  /** A key that sorts before every key of `g` has no value in it. */
  lemma {:induction false} TotalForAbsent(g: seq<TeamSum>, team: string)
    requires forall i :: 0 <= i < |g| ==> LexLess(team, g[i].team)
    ensures TotalFor(g, team) == 0
  {
    if g != [] {
      LexIrreflexive(team);
      TotalForAbsent(g[1..], team);
    }
  }

  /** The grouped frame: strictly ascending team keys, exactly the teams
      present in the rows, each with the sum of the indicator over its rows. */
  function GroupSum(rows: seq<Row>, ind: Indicator): (g: seq<TeamSum>)
    ensures StrictlyAscending(g)
    ensures Keys(g) == TeamsOf(rows)
    ensures forall k :: TotalFor(g, k) == TeamTotal(rows, k, ind)
  {
    if rows == [] then []
    else
      var rest := GroupSum(rows[1..], ind);
      var r := rows[0].record;
      AddToAscending(rest, r.team, StatOf(r, ind));
      AddToKeys(rest, r.team, StatOf(r, ind));
      AddToTotals(rest, r.team, StatOf(r, ind));
      assert rows == [rows[0]] + rows[1..];
      assert TeamsOf(rows) == {r.team} + TeamsOf(rows[1..]);
      AddTo(rest, r.team, StatOf(r, ind))
  }

  /** Each entry of the grouped frame holds the indicator's sum over its team's rows. */
  lemma GroupSumEntries(rows: seq<Row>, ind: Indicator)
    ensures forall i :: 0 <= i < |GroupSum(rows, ind)| ==>
      GroupSum(rows, ind)[i].total == TeamTotal(rows, GroupSum(rows, ind)[i].team, ind)
  {
    TotalForEntries(GroupSum(rows, ind));
  }

  lemma {:induction false} TeamTotalConcat(a: seq<Row>, b: seq<Row>, team: string, ind: Indicator)
    ensures TeamTotal(a + b, team, ind) == TeamTotal(a, team, ind) + TeamTotal(b, team, ind)
  {
    if a == [] {
      assert a + b == b;
    } else {
      assert (a + b)[1..] == a[1..] + b;
      TeamTotalConcat(a[1..], b, team, ind);
    }
  }

  lemma TeamTotalRemove(b: seq<Row>, i: nat, team: string, ind: Indicator)
    requires i < |b|
    ensures TeamTotal(b, team, ind)
         == TeamTotal([b[i]], team, ind) + TeamTotal(b[..i] + b[i + 1..], team, ind)
  {
    assert b == b[..i] + ([b[i]] + b[i + 1..]);
    TeamTotalConcat(b[..i], [b[i]] + b[i + 1..], team, ind);
    TeamTotalConcat([b[i]], b[i + 1..], team, ind);
    TeamTotalConcat(b[..i], b[i + 1..], team, ind);
  }

  lemma MultisetRemove<T>(a: seq<T>, b: seq<T>, i: nat)
    requires multiset(a) == multiset(b) && a != [] && i < |b| && b[i] == a[0]
    ensures multiset(b[..i] + b[i + 1..]) == multiset(a[1..])
  {
    var b' := b[..i] + b[i + 1..];
    assert b == b[..i] + [b[i]] + b[i + 1..];
    assert multiset(b) == multiset(b[..i]) + multiset{b[i]} + multiset(b[i + 1..]);
    assert multiset(b') == multiset(b[..i]) + multiset(b[i + 1..]);
    assert multiset(b) == multiset(b') + multiset{a[0]};
    assert a == [a[0]] + a[1..];
    assert multiset(a) == multiset(a[1..]) + multiset{a[0]};
    forall z
      ensures multiset(b')[z] == multiset(a[1..])[z]
    {
      assert (multiset(b') + multiset{a[0]})[z] == multiset(b)[z];
      assert (multiset(a[1..]) + multiset{a[0]})[z] == multiset(a)[z];
    }
  }

  /** A team's sum does not depend on the order of the rows. */
  lemma {:induction false} TeamTotalPermutation(a: seq<Row>, b: seq<Row>, team: string, ind: Indicator)
    requires multiset(a) == multiset(b)
    ensures TeamTotal(a, team, ind) == TeamTotal(b, team, ind)
    decreases |a|
  {
    if a == [] {
      assert |b| == |multiset(b)| == 0;
    } else {
      assert a[0] in multiset(b);
      var i :| 0 <= i < |b| && b[i] == a[0];
      var b' := b[..i] + b[i + 1..];
      MultisetRemove(a, b, i);
      TeamTotalPermutation(a[1..], b', team, ind);
      TeamTotalRemove(b, i, team, ind);
    }
  }

  /** The first key of a grouped frame sorts before all its other keys. */
  lemma FirstKeyLeast(g: seq<TeamSum>, team: string)
    requires StrictlyAscending(g) && team in Keys(g) && g != []
    ensures team == g[0].team || LexLess(g[0].team, team)
  {
    var t :| t in g && t.team == team;
    var j :| 0 <= j < |g| && g[j] == t;
  }

  lemma {:induction false} KeysOfTail(g: seq<TeamSum>)
    requires StrictlyAscending(g) && g != []
    ensures Keys(g[1..]) == Keys(g) - {g[0].team}
  {
    assert g == [g[0]] + g[1..];
    assert Keys(g) == {g[0].team} + Keys(g[1..]);
    if g[0].team in Keys(g[1..]) {
      var t :| t in g[1..] && t.team == g[0].team;
      var j :| 0 <= j < |g[1..]| && g[1..][j] == t;
      assert g[j + 1] == t;
      LexIrreflexive(g[0].team);
    }
  }

  lemma KeysEmpty(g: seq<TeamSum>)
    ensures Keys(g) == {} <==> g == []
  {
    if g != [] {
      assert g[0].team in Keys(g);
    }
  }

  /** Two grouped frames with the same keys and the same value for each key
      are the same frame: key order leaves no freedom. */
  lemma {:induction false} GroupedUnique(g: seq<TeamSum>, h: seq<TeamSum>)
    requires StrictlyAscending(g) && StrictlyAscending(h)
    requires Keys(g) == Keys(h)
    requires forall k :: TotalFor(g, k) == TotalFor(h, k)
    ensures g == h
  {
    KeysEmpty(g);
    KeysEmpty(h);
    if g != [] && h != [] {
      {
        var a, b := g[0].team, h[0].team;
        assert b in Keys(h);
        FirstKeyLeast(g, b);
        FirstKeyLeast(h, a);
        if a != b {
          LexAsymmetric(a, b);
        }
        TotalForEntries(g);
        TotalForEntries(h);
        assert g[0] == h[0];
        KeysOfTail(g);
        KeysOfTail(h);
        forall k
          ensures TotalFor(g[1..], k) == TotalFor(h[1..], k)
        {
          assert TotalFor(g, k) == TotalFor(h, k);
        }
        GroupedUnique(g[1..], h[1..]);
        assert g == [g[0]] + g[1..] && h == [h[0]] + h[1..];
      }
    }
  }

  /** Permuting the rows leaves the grouped frame exactly as it was. */
  lemma GroupSumPermutation(a: seq<Row>, b: seq<Row>, ind: Indicator)
    requires multiset(a) == multiset(b)
    ensures GroupSum(a, ind) == GroupSum(b, ind)
  {
    forall k
      ensures TotalFor(GroupSum(a, ind), k) == TotalFor(GroupSum(b, ind), k)
    {
      TeamTotalPermutation(a, b, k, ind);
    }
    assert TeamsOf(a) == TeamsOf(b) by {
      forall r
        ensures r in a <==> r in b
      {
        assert r in a <==> r in multiset(a);
        assert r in b <==> r in multiset(b);
      }
    }
    GroupedUnique(GroupSum(a, ind), GroupSum(b, ind));
  }

  lemma {:induction false} FilterAbove(g: seq<TeamSum>, p: TeamSum -> bool, team: string)
    requires forall i :: 0 <= i < |g| ==> LexLess(team, g[i].team)
    ensures forall j :: 0 <= j < |Filter(g, p)| ==> LexLess(team, Filter(g, p)[j].team)
  {
    if g != [] {
      FilterAbove(g[1..], p, team);
      var rest := Filter(g[1..], p);
      if p(g[0]) {
        var r := Filter(g, p);
        assert r == [g[0]] + rest;
        forall j | 0 < j < |r|
          ensures LexLess(team, r[j].team)
        {
          assert r[j] == rest[j - 1];
        }
      }
    }
  }

  /** Filtering a grouped frame keeps its keys strictly ascending. */
  lemma {:induction false} FilterAscending(g: seq<TeamSum>, p: TeamSum -> bool)
    requires StrictlyAscending(g)
    ensures StrictlyAscending(Filter(g, p))
  {
    if g != [] {
      FilterAscending(g[1..], p);
      var rest := Filter(g[1..], p);
      if p(g[0]) {
        FilterAbove(g[1..], p, g[0].team);
        var r := Filter(g, p);
        assert r == [g[0]] + rest;
        forall i, j | 0 <= i < j < |r|
          ensures LexLess(r[i].team, r[j].team)
        {
          assert r[j] == rest[j - 1];
          if i > 0 {
            assert r[i] == rest[i - 1];
          }
        }
      }
    }
  }

  /** A grouped frame has one entry per key. */
  lemma {:induction false} KeysCardinality(g: seq<TeamSum>)
    requires StrictlyAscending(g)
    ensures |Keys(g)| == |g|
  {
    KeysEmpty(g);
    if g != [] {
      KeysOfTail(g);
      KeysCardinality(g[1..]);
    }
  }
}
