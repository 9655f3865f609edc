/**
 * The live side: picking the games that are at halftime from the
 * scoreboard, extracting one wide row per game (skipping any game whose
 * fetch or extraction fails), and running the reshape when at least one
 * game was picked.
 *
 * The scoreboard is an input sequence; fetching and extracting one game's
 * live box score is an input function that gives no row on failure.
 */
module Halftime {
  import opened Wrappers
  import opened Text
  import opened Stats
  import Reshape

  /** A game as the live scoreboard lists it. */
  datatype ScoreboardGame = ScoreboardGame(gameId: string, period: int, gameClock: string, gameStatusText: string)

  /** Clock value of a period that has run out. */
  const ExpiredClock: string := "PT00M00.00S"

  /** The end of the second period, or a status text that reads "half" in any letter case. */
  predicate AtHalftime(g: ScoreboardGame)
  {
    (g.period == 2 && g.gameClock == ExpiredClock) || Lower(g.gameStatusText) == "half"
  }

  /** The status test accepts exactly the four letters h, a, l, f, each in either case. */
  lemma {:induction false} HalfStatusIgnoresCase(s: string)
    ensures Lower(s) == "half" <==>
      |s| == 4 && s[0] in "hH" && s[1] in "aA" && s[2] in "lL" && s[3] in "fF"
  {
    var l := Lower(s);
    assert forall k :: 0 <= k < |s| ==> l[k] == LowerChar(s[k]);
    if l == "half" {
      assert l[0] == 'h' && l[1] == 'a' && l[2] == 'l' && l[3] == 'f';
      assert LowerChar(s[0]) == 'h' && LowerChar(s[1]) == 'a' && LowerChar(s[2]) == 'l' && LowerChar(s[3]) == 'f';
    }
  }

  /** Ids of the games at halftime, in scoreboard order. */
  function HalftimeIds(games: seq<ScoreboardGame>): seq<string>
  {
    if games == [] then []
    else
      var last := games[|games| - 1];
      HalftimeIds(games[..|games| - 1]) + if AtHalftime(last) then [last.gameId] else []
  }

  /** Selection works game by game: it distributes over concatenation. */
  lemma {:induction false} HalftimeIdsAppend(a: seq<ScoreboardGame>, b: seq<ScoreboardGame>)
    ensures HalftimeIds(a + b) == HalftimeIds(a) + HalftimeIds(b)
  {
    if b == [] {
      assert a + b == a;
    } else {
      var n := |b| - 1;
      assert (a + b)[..|a + b| - 1] == a + b[..n];
      HalftimeIdsAppend(a, b[..n]);
    }
  }

  /** An id is selected exactly when some game with that id is at halftime. */
  lemma {:induction false} HalftimeIdsMembers(games: seq<ScoreboardGame>, x: string)
    ensures x in HalftimeIds(games) <==> exists i :: 0 <= i < |games| && AtHalftime(games[i]) && games[i].gameId == x
  {
    if games != [] {
      var n := |games| - 1;
      var p := games[..n];
      HalftimeIdsMembers(p, x);
      assert forall i :: 0 <= i < n ==> p[i] == games[i];
    }
  }

  /** Nothing is selected exactly when no game is at halftime. */
  lemma {:induction false} HalftimeIdsEmpty(games: seq<ScoreboardGame>)
    ensures HalftimeIds(games) == [] <==> forall i :: 0 <= i < |games| ==> !AtHalftime(games[i])
  {
    if games != [] {
      var n := |games| - 1;
      HalftimeIdsEmpty(games[..n]);
      assert forall i :: 0 <= i < n ==> games[..n][i] == games[i];
    }
  }

  /** Scans the scoreboard and collects the ids of the games at halftime. */
  method GameIdsAtHalftime(games: seq<ScoreboardGame>) returns (ids: seq<string>)
    ensures ids == HalftimeIds(games)
  {
    ids := [];
    for i := 0 to |games|
      invariant ids == HalftimeIds(games[..i])
    {
      assert games[..i + 1][..i] == games[..i];
      if AtHalftime(games[i]) {
        ids := ids + [games[i].gameId];
      }
    }
    assert games[..|games|] == games;
  }

  /** The rows extracted from the ids that succeed, in id order. */
  function Extracted(ids: seq<string>, extract: string -> Option<WideRow>): seq<WideRow>
  {
    if ids == [] then []
    else
      var last := ids[|ids| - 1];
      Extracted(ids[..|ids| - 1], extract) + match extract(last) { case Some(row) => [row] case None => [] }
  }

  /** Extraction works id by id: it distributes over concatenation. */
  lemma {:induction false} ExtractedAppend(a: seq<string>, b: seq<string>, extract: string -> Option<WideRow>)
    ensures Extracted(a + b, extract) == Extracted(a, extract) + Extracted(b, extract)
  {
    if b == [] {
      assert a + b == a;
    } else {
      var n := |b| - 1;
      assert (a + b)[..|a + b| - 1] == a + b[..n];
      ExtractedAppend(a, b[..n], extract);
    }
  }

  /** An id whose extraction fails contributes nothing; the ids after it still do. */
  lemma {:induction false} FailedIdSkipped(a: seq<string>, id: string, b: seq<string>, extract: string -> Option<WideRow>)
    requires extract(id).None?
    ensures Extracted(a + [id] + b, extract) == Extracted(a + b, extract)
  {
    ExtractedAppend(a + [id], b, extract);
    ExtractedAppend(a, [id], extract);
    ExtractedAppend(a, b, extract);
    assert [id][..0] == [];
  }

  /**
   * The table holds one row per successful id, in id order: there is an
   * increasing choice of ids whose extractions are exactly the rows.
   */
  lemma {:induction false} ExtractedInOrder(ids: seq<string>, extract: string -> Option<WideRow>)
    ensures var rows := Extracted(ids, extract);
      && |rows| <= |ids|
      && (|rows| == |ids| <==> forall i :: 0 <= i < |ids| ==> extract(ids[i]).Some?)
      && forall k :: 0 <= k < |rows| ==> exists i :: 0 <= i < |ids| && extract(ids[i]) == Some(rows[k])
  {
    if ids != [] {
      var n := |ids| - 1;
      var p := ids[..n];
      ExtractedInOrder(p, extract);
      assert forall i :: 0 <= i < n ==> p[i] == ids[i];
      var rows := Extracted(ids, extract);
      if |rows| == |ids| {
        assert |Extracted(p, extract)| == |p|;
      }
    }
  }

  /** Fetches and extracts every id in turn, appending each row that comes back. */
  method LiveBoxscore(ids: seq<string>, extract: string -> Option<WideRow>) returns (table: seq<WideRow>)
    ensures table == Extracted(ids, extract)
  {
    table := [];
    for i := 0 to |ids|
      invariant table == Extracted(ids[..i], extract)
    {
      assert ids[..i + 1][..i] == ids[..i];
      var row := extract(ids[i]);
      if row.Some? {
        table := table + [row.value];
      }
    }
    assert ids[..|ids|] == ids;
  }

  /** How one polling run ends. */
  datatype RunOutcome =
    | NoGameAtHalftime
      /** Games are at halftime but no row came back: the transformation fails on the empty table. */
    | EmptyTableFailure
    | Analysed(rows: seq<Reshape.AnalysisRow>)

  /**
   * One polling run: select the games at halftime and, only if there is
   * one, extract their rows and build the analysis table. An empty table
   * makes the key computation of the transformation fail, which nothing
   * catches, so the run ends there.
   */
  method RunAtHalftime(games: seq<ScoreboardGame>, extract: string -> Option<WideRow>)
    returns (outcome: RunOutcome)
    ensures outcome.NoGameAtHalftime? <==> forall i :: 0 <= i < |games| ==> !AtHalftime(games[i])
    ensures outcome.EmptyTableFailure? <==>
      (exists i :: 0 <= i < |games| && AtHalftime(games[i])) && Extracted(HalftimeIds(games), extract) == []
    ensures outcome.Analysed? ==>
      && Extracted(HalftimeIds(games), extract) != []
      && outcome.rows == Reshape.Transform(Extracted(HalftimeIds(games), extract))
  {
    var ids := GameIdsAtHalftime(games);
    HalftimeIdsEmpty(games);
    if |ids| > 0 {
      var table := LiveBoxscore(ids, extract);
      if table == [] {
        outcome := EmptyTableFailure;
      } else {
        outcome := Analysed(Reshape.Transform(table));
      }
    } else {
      outcome := NoGameAtHalftime;
    }
  }
}
