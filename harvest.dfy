/**
 * Harvesting historical games: the list of team ids, the filtered and
 * formatted list of game ids of one season, and the wide table of
 * halftime box scores built one game at a time.
 *
 * The statistics provider's responses (the team list, the game finder's
 * table, the traditional box score of the first 24 minutes) are inputs:
 * plain sequences and records, already decoded.
 */
module Harvest {
  import opened Wrappers
  import opened Text
  import opened Stats
  import opened WideTable

  /** A team as the static team list gives it. */
  datatype Team = Team(id: int, abbreviation: string)

  /** One row of the game finder's table (one per team per game). */
  datatype GameRecord = GameRecord(seasonId: nat, teamId: int, gameId: string)

  /** Collects the id of every team, in the order the teams are listed. */
  method FindAllTeamIds(teams: seq<Team>) returns (teamIds: seq<int>)
    ensures |teamIds| == |teams|
    ensures forall i :: 0 <= i < |teams| ==> teamIds[i] == teams[i].id
  {
    teamIds := [];
    for i := 0 to |teams|
      invariant |teamIds| == i
      invariant forall j :: 0 <= j < i ==> teamIds[j] == teams[j].id
    {
      teamIds := teamIds + [teams[i].id];
    }
  }

  /** First character of the printed season id: the season type. */
  function SeasonType(seasonId: nat): (t: string)
    ensures |t| == 1 && t[0] == Decimal(seasonId)[0]
  {
    Decimal(seasonId)[..1]
  }

  /** Last four characters of the printed season id (all of it when shorter): the season year. */
  function SeasonYear(seasonId: nat): string
  {
    var s := Decimal(seasonId);
    if |s| < 4 then s else s[|s| - 4..]
  }

  /** The season year is the printed id's last four characters, or all of it when shorter. */
  lemma SeasonYearSuffix(seasonId: nat)
    ensures var s, y := Decimal(seasonId), SeasonYear(seasonId);
      && |y| == (if |s| < 4 then |s| else 4)
      && s == s[..|s| - |y|] + y
  {
  }

  /** The season year reads back as the season id modulo 10^4. */
  lemma SeasonYearValue(seasonId: nat)
    ensures DecimalValue(SeasonYear(seasonId)) == seasonId % 10000
  {
    var s := Decimal(seasonId);
    SeasonYearSuffix(seasonId);
    DecimalRoundTrip(seasonId);
    LastFourValue(s, SeasonYear(seasonId));
  }

  /** The last (at most) four digits of a digit string read as its value modulo 10^4. */
  lemma LastFourValue(s: string, y: string)
    requires AllDigits(s)
    requires |y| == (if |s| < 4 then |s| else 4) && s == s[..|s| - |y|] + y
    ensures AllDigits(y) && DecimalValue(y) == DecimalValue(s) % 10000
  {
    var front := s[..|s| - |y|];
    AllDigitsSplit(front, y);
    DecimalValueAppend(front, y);
    DecimalValueBound(y);
    Pow10UpToFour(|y|);
    if |s| < 4 {
      assert front == [];
      assert DecimalValue(y) == DecimalValue(s);
      ModOfSplit(DecimalValue(s), 0, 10000, DecimalValue(y));
    } else {
      ModOfSplit(DecimalValue(s), DecimalValue(front), Pow10(|y|), DecimalValue(y));
    }
  }

  lemma Pow10UpToFour(k: nat)
    requires k <= 4
    ensures Pow10(k) <= 10000 && (k == 4 ==> Pow10(k) == 10000)
  {
    assert Pow10(1) == 10;
    assert Pow10(2) == 100;
    assert Pow10(3) == 1000;
    assert Pow10(4) == 10000;
  }

  lemma ModOfSplit(n: nat, q: nat, p: nat, m: nat)
    requires p == 10000 && n == q * p + m && m < p
    ensures n % 10000 == m
  {
  }

  lemma SeasonIdExample()
    ensures SeasonType(22023) == "2" && SeasonYear(22023) == "2023"
  {
    assert Decimal(2) == "2";
    assert Decimal(22) == Decimal(2) + "2" == "22";
    assert Decimal(220) == Decimal(22) + "0" == "220";
    assert Decimal(2202) == Decimal(220) + "2" == "2202";
    assert Decimal(22023) == Decimal(2202) + "3" == "22023";
  }

  /** Upper bound (exclusive) on the integer value of a kept game id. */
  const GameIdBound: nat := 1000000000

  /** The game id with the two leading zeros the provider's ids carry. */
  function FormatGameId(n: nat): (s: string)
    ensures |s| >= 3 && s[..2] == "00" && s[2..] == Decimal(n)
  {
    "00" + Decimal(n)
  }

  /** The provider id's integer value printed with its two leading zeros. */
  function IdOf(g: GameRecord): string
    requires IsNumeral(g.gameId)
  {
    FormatGameId(DecimalValue(g.gameId))
  }

  /**
   * Every GAME_ID of the game finder's table is a string `int` accepts.
   * The conversion runs over the whole column before any filtering, so a
   * single other id aborts the collection.
   */
  predicate AllNumeral(games: seq<GameRecord>)
  {
    forall k :: 0 <= k < |games| ==> IsNumeral(games[k].gameId)
  }

  /**
   * The season and id-bound part of the filter. Its numeral test holds
   * for every row of a table that satisfies `AllNumeral`; it is there so
   * that the id's value is defined.
   */
  predicate InSeason(g: GameRecord, season: string)
  {
    && IsNumeral(g.gameId)
    && SeasonYear(g.seasonId) == season
    && DecimalValue(g.gameId) < GameIdBound
  }

  /** Whether the filter keeps a game row. */
  predicate Kept(g: GameRecord, teamIds: seq<int>, season: string)
  {
    g.teamId in teamIds && InSeason(g, season)
  }

  /** The formatted id a row contributes when the filter keeps it. */
  function KeptId(g: GameRecord, teamIds: seq<int>, season: string): Option<string>
  {
    if Kept(g, teamIds, season) then Some(IdOf(g)) else None
  }

  /** Whether row i of the table is kept and yields the id x. */
  predicate Yields(games: seq<GameRecord>, i: int, teamIds: seq<int>, season: string, x: string)
  {
    0 <= i < |games| && KeptId(games[i], teamIds, season) == Some(x)
  }

  /** The values `f` gives the elements of `s`, where it gives one, in order. */
  function Collect<T, U>(s: seq<T>, f: T -> Option<U>): seq<U>
  {
    if s == [] then []
    else
      Collect(s[..|s| - 1], f) + match f(s[|s| - 1]) case Some(v) => [v] case None => []
  }

  lemma {:induction false} CollectMembers<T, U>(s: seq<T>, f: T -> Option<U>, x: U)
    ensures x in Collect(s, f) <==> exists i :: 0 <= i < |s| && f(s[i]) == Some(x)
  {
    if s != [] {
      var n := |s| - 1;
      var p := s[..n];
      var tail := match f(s[n]) case Some(v) => [v] case None => [];
      assert Collect(s, f) == Collect(p, f) + tail;
      CollectMembers(p, f, x);
      if x in Collect(s, f) {
        if x in Collect(p, f) {
          var i :| 0 <= i < |p| && f(p[i]) == Some(x);
          assert p[i] == s[i];
        } else {
          assert f(s[n]) == Some(x);
        }
      }
      if exists i :: 0 <= i < |s| && f(s[i]) == Some(x) {
        var i :| 0 <= i < |s| && f(s[i]) == Some(x);
        if i < n {
          assert p[i] == s[i];
        }
      }
    }
  }

  /** Collecting a prefix gives a prefix: values keep the order of the elements they come from. */
  lemma {:induction false} CollectPrefix<T, U>(s: seq<T>, f: T -> Option<U>, k: nat)
    requires k <= |s|
    ensures Collect(s[..k], f) <= Collect(s, f)
  {
    if k < |s| {
      var p := s[..|s| - 1];
      assert p[..k] == s[..k];
      CollectPrefix(p, f, k);
    } else {
      assert s[..k] == s;
    }
  }

  /** The formatted ids of the kept rows, in table order (duplicates still present). */
  function KeptIds(games: seq<GameRecord>, teamIds: seq<int>, season: string): seq<string>
  {
    Collect(games, g => KeptId(g, teamIds, season))
  }

  lemma {:induction false} KeptIdsMembers(games: seq<GameRecord>, teamIds: seq<int>, season: string, x: string)
    ensures x in KeptIds(games, teamIds, season) <==> exists i :: Yields(games, i, teamIds, season, x)
  {
    var f := g => KeptId(g, teamIds, season);
    CollectMembers(games, f, x);
    if x in KeptIds(games, teamIds, season) {
      var i :| 0 <= i < |games| && f(games[i]) == Some(x);
      assert Yields(games, i, teamIds, season, x);
    }
    if exists i :: Yields(games, i, teamIds, season, x) {
      var i :| Yields(games, i, teamIds, season, x);
      assert f(games[i]) == Some(x);
    }
  }

  predicate NoDuplicates(s: seq<string>)
  {
    forall i, j :: 0 <= i < j < |s| ==> s[i] != s[j]
  }

  /** The distinct values of a sequence, in order of first appearance. */
  function Unique(s: seq<string>): (u: seq<string>)
    ensures NoDuplicates(u)
    ensures forall x :: x in u <==> x in s
  {
    if s == [] then []
    else
      var u := Unique(s[..|s| - 1]);
      var x := s[|s| - 1];
      assert forall y :: y in s <==> y in s[..|s| - 1] || y == x by {
        assert s == s[..|s| - 1] + [x];
      }
      if x in u then u else u + [x]
  }

  /**
   * Appending values never reorders what is already there: the distinct
   * values of a prefix are a prefix of the distinct values of the whole.
   */
  lemma {:induction false} UniqueKeepsFirstAppearanceOrder(s: seq<string>, k: nat)
    requires k <= |s|
    ensures Unique(s[..k]) <= Unique(s)
  {
    if k < |s| {
      var p := s[..|s| - 1];
      assert p[..k] == s[..k];
      UniqueKeepsFirstAppearanceOrder(p, k);
    } else {
      assert s[..k] == s;
    }
  }

  /**
   * The season's game ids: rows of a listed team, of the requested season
   * year and with an integer id below the bound, each id printed with two
   * leading zeros, duplicates removed in order of first appearance.
   */
  function GameIdsFor(teamIds: seq<int>, games: seq<GameRecord>, season: string): (ids: seq<string>)
    requires AllNumeral(games)
    ensures NoDuplicates(ids)
    ensures forall x :: x in ids <==> exists i :: Yields(games, i, teamIds, season, x)
  {
    var ids := Unique(KeptIds(games, teamIds, season));
    assert forall x :: x in ids <==> exists i :: Yields(games, i, teamIds, season, x) by {
      forall x ensures x in ids <==> exists i :: Yields(games, i, teamIds, season, x) {
        KeptIdsMembers(games, teamIds, season, x);
      }
    }
    ids
  }

  /**
   * The ids keep the order in which they first appear in the table: the
   * ids of the first k rows are a prefix of the ids of the whole table.
   */
  lemma GameIdsFirstAppearanceOrder(teamIds: seq<int>, games: seq<GameRecord>, season: string, k: nat)
    requires AllNumeral(games) && k <= |games|
    ensures AllNumeral(games[..k])
    ensures GameIdsFor(teamIds, games[..k], season) <= GameIdsFor(teamIds, games, season)
  {
    var f := g => KeptId(g, teamIds, season);
    var all := KeptIds(games, teamIds, season);
    var front := KeptIds(games[..k], teamIds, season);
    CollectPrefix(games, f, k);
    assert front == all[..|front|];
    UniqueKeepsFirstAppearanceOrder(all, |front|);
  }

  /** Every returned id is "00" followed by a numeral of one to nine digits without leading zero. */
  lemma {:induction false} GameIdsBounded(teamIds: seq<int>, games: seq<GameRecord>, season: string)
    requires AllNumeral(games)
    ensures forall x :: x in GameIdsFor(teamIds, games, season) ==>
      3 <= |x| <= 11 && x[..2] == "00" && IsCanonical(x[2..])
  {
    forall x | x in GameIdsFor(teamIds, games, season)
      ensures 3 <= |x| <= 11 && x[..2] == "00" && IsCanonical(x[2..])
    {
      var i :| Yields(games, i, teamIds, season, x);
      DecimalLength(DecimalValue(games[i].gameId), 9);
    }
  }

  /**
   * A provider id of the usual shape, "00" followed by a numeral without
   * leading zero, comes out of the int-then-format step unchanged.
   */
  lemma {:induction false} StandardIdRoundTrip(id: string, digits: string)
    requires id == "00" + digits && IsCanonical(digits) && digits[0] != '0'
    ensures IsNumeral(id) && FormatGameId(DecimalValue(id)) == id
  {
    LeadingZeroIgnored(digits);
    assert "0" + ("0" + digits) == id;
    LeadingZeroIgnored("0" + digits);
    CanonicalRoundTrip(digits);
  }

  /**
   * Collects the season's game ids: the team ids first, then the filter
   * and formatting over the game finder's rows.
   */
  method FindAllGameIds(teams: seq<Team>, games: seq<GameRecord>, season: string) returns (ids: seq<string>)
    requires AllNumeral(games)
    ensures ids == GameIdsFor(TeamIdsOf(teams), games, season)
    ensures NoDuplicates(ids)
    ensures forall x :: x in ids <==>
      exists i :: 0 <= i < |games| && Listed(teams, games[i].teamId) && InSeason(games[i], season) && x == IdOf(games[i])
  {
    var teamIds := FindAllTeamIds(teams);
    assert forall id :: id in teamIds <==> Listed(teams, id) by {
      forall id ensures id in teamIds <==> Listed(teams, id) {
        if id in teamIds {
          var j :| 0 <= j < |teamIds| && teamIds[j] == id;
          assert teams[j] in teams;
        }
        if Listed(teams, id) {
          var t :| t in teams && t.id == id;
          var j :| 0 <= j < |teams| && teams[j] == t;
          assert teamIds[j] == id;
        }
      }
    }
    assert teamIds == TeamIdsOf(teams);
    ids := GameIdsFor(teamIds, games, season);
    forall x ensures x in ids <==>
      exists i :: 0 <= i < |games| && Listed(teams, games[i].teamId) && InSeason(games[i], season) && x == IdOf(games[i])
    {
      if exists i :: 0 <= i < |games| && Listed(teams, games[i].teamId) && InSeason(games[i], season) && x == IdOf(games[i]) {
        var i :| 0 <= i < |games| && Listed(teams, games[i].teamId) && InSeason(games[i], season) && x == IdOf(games[i]);
        assert Yields(games, i, teamIds, season, x);
      }
    }
  }

  /** The ids of the teams, in list order. */
  function TeamIdsOf(teams: seq<Team>): seq<int>
  {
    seq(|teams|, i requires 0 <= i < |teams| => teams[i].id)
  }

  predicate Listed(teams: seq<Team>, id: int)
  {
    exists t :: t in teams && t.id == id
  }

  /** A decoded team box of the traditional box score. */
  datatype TeamBox = TeamBox(teamTricode: string, starters: StatBlock, statistics: StatBlock)

  /** A decoded traditional box score of one game. */
  datatype StaticBoxScore = StaticBoxScore(homeTeam: TeamBox, awayTeam: TeamBox)

  /** The wide row of one game, keyed by the raw integer id. */
  function RowOf(g: nat, box: StaticBoxScore): WideRow
  {
    WideRow(g, box.homeTeam.teamTricode, box.awayTeam.teamTricode,
            box.homeTeam.starters, box.homeTeam.statistics,
            box.awayTeam.starters, box.awayTeam.statistics)
  }

  /**
   * Builds the wide halftime table: one 59-cell row per id, in input
   * order. The provider is asked for the id with two leading zeros; the
   * row keeps the raw integer id.
   */
  method BoxscoreAtHalftime(ids: seq<nat>, fetch: string -> StaticBoxScore) returns (table: seq<seq<Cell>>)
    ensures |table| == |ids|
    ensures forall i :: 0 <= i < |ids| ==>
      var box := fetch(FormatGameId(ids[i]));
      && |table[i]| == RowWidth
      && table[i][0] == IdCell(ids[i])
      && table[i][1] == TextCell(box.homeTeam.teamTricode)
      && table[i][2] == TextCell(box.awayTeam.teamTricode)
      && Unflatten(table[i]) == Some(RowOf(ids[i], box))
  {
    table := [];
    for i := 0 to |ids|
      invariant |table| == i
      invariant forall j :: 0 <= j < i ==> table[j] == Flatten(RowOf(ids[j], fetch(FormatGameId(ids[j]))))
    {
      var g := ids[i];
      var box := fetch(FormatGameId(g));
      table := table + [Flatten(RowOf(g, box))];
    }
    forall i | 0 <= i < |ids|
      ensures Unflatten(table[i]) == Some(RowOf(ids[i], fetch(FormatGameId(ids[i]))))
    {
      FlattenRoundTrip(RowOf(ids[i], fetch(FormatGameId(ids[i]))));
    }
  }
}
