/**
 * The statistics schema shared by every step: the thirteen counting
 * categories of a box score, a stat block (minutes plus those counts) and
 * the wide per-game row with its four blocks (home starters, home team,
 * away starters, away team).
 */
module Stats {

  /** The counting categories, in the order the tables list them. */
  datatype Category = FGM | FGA | FG3M | FG3A | FTM | FTA | OREB | DREB | AST | STL | BLK | TO | FOUL

  const Categories: seq<Category> := [FGM, FGA, FG3M, FG3A, FTM, FTA, OREB, DREB, AST, STL, BLK, TO, FOUL]

  /** Column suffix of a category, as the tables spell it. */
  function CategoryName(c: Category): string
  {
    match c
    case FGM => "FGM"
    case FGA => "FGA"
    case FG3M => "3PM"
    case FG3A => "3PA"
    case FTM => "FTM"
    case FTA => "FTA"
    case OREB => "OREB"
    case DREB => "DREB"
    case AST => "AST"
    case STL => "STL"
    case BLK => "BLK"
    case TO => "TO"
    case FOUL => "FOUL"
  }

  /**
   * One value per counting category. Counts are `int`, not `nat`: a bench
   * block is a difference of two counts and nothing checks its sign.
   */
  datatype Counts = Counts(
    fgm: int, fga: int, fg3m: int, fg3a: int, ftm: int, fta: int,
    oreb: int, dreb: int, ast: int, stl: int, blk: int, to: int, foul: int)
  {
    function Get(c: Category): int
    {
      match c
      case FGM => fgm
      case FGA => fga
      case FG3M => fg3m
      case FG3A => fg3a
      case FTM => ftm
      case FTA => fta
      case OREB => oreb
      case DREB => dreb
      case AST => ast
      case STL => stl
      case BLK => blk
      case TO => to
      case FOUL => foul
    }
  }

  /** Two count blocks that agree on every category are the same block. */
  lemma CountsExtensional(a: Counts, b: Counts)
    requires forall c: Category :: a.Get(c) == b.Get(c)
    ensures a == b
  {
    assert a.fgm == b.fgm by { assert a.Get(FGM) == b.Get(FGM); }
    assert a.fga == b.fga by { assert a.Get(FGA) == b.Get(FGA); }
    assert a.fg3m == b.fg3m by { assert a.Get(FG3M) == b.Get(FG3M); }
    assert a.fg3a == b.fg3a by { assert a.Get(FG3A) == b.Get(FG3A); }
    assert a.ftm == b.ftm by { assert a.Get(FTM) == b.Get(FTM); }
    assert a.fta == b.fta by { assert a.Get(FTA) == b.Get(FTA); }
    assert a.oreb == b.oreb by { assert a.Get(OREB) == b.Get(OREB); }
    assert a.dreb == b.dreb by { assert a.Get(DREB) == b.Get(DREB); }
    assert a.ast == b.ast by { assert a.Get(AST) == b.Get(AST); }
    assert a.stl == b.stl by { assert a.Get(STL) == b.Get(STL); }
    assert a.blk == b.blk by { assert a.Get(BLK) == b.Get(BLK); }
    assert a.to == b.to by { assert a.Get(TO) == b.Get(TO); }
    assert a.foul == b.foul by { assert a.Get(FOUL) == b.Get(FOUL); }
  }

  /** Category-wise difference: how bench counts are derived from team and starter counts. */
  function Sub(total: Counts, part: Counts): (r: Counts)
    ensures forall c: Category :: r.Get(c) == total.Get(c) - part.Get(c)
  {
    Counts(total.fgm - part.fgm, total.fga - part.fga, total.fg3m - part.fg3m, total.fg3a - part.fg3a,
           total.ftm - part.ftm, total.fta - part.fta, total.oreb - part.oreb, total.dreb - part.dreb,
           total.ast - part.ast, total.stl - part.stl, total.blk - part.blk, total.to - part.to,
           total.foul - part.foul)
  }

  /** Category-wise sum: starters plus bench. */
  function Add(a: Counts, b: Counts): (r: Counts)
    ensures forall c: Category :: r.Get(c) == a.Get(c) + b.Get(c)
  {
    Counts(a.fgm + b.fgm, a.fga + b.fga, a.fg3m + b.fg3m, a.fg3a + b.fg3a, a.ftm + b.ftm,
           a.fta + b.fta, a.oreb + b.oreb, a.dreb + b.dreb, a.ast + b.ast, a.stl + b.stl,
           a.blk + b.blk, a.to + b.to, a.foul + b.foul)
  }

  /** Subtracting the starters and adding them back restores the team total. */
  lemma SubAddRoundTrip(total: Counts, starters: Counts)
    ensures Add(starters, Sub(total, starters)) == total
  {
    CountsExtensional(Add(starters, Sub(total, starters)), total);
  }

  /** A difference has no negative category exactly when the total dominates the part. */
  lemma SubNonNegative(total: Counts, part: Counts)
    ensures (forall c: Category :: Sub(total, part).Get(c) >= 0) <==> (forall c: Category :: total.Get(c) >= part.Get(c))
  {
    var d := Sub(total, part);
    if forall c: Category :: d.Get(c) >= 0 {
      forall c: Category ensures total.Get(c) >= part.Get(c) {
        assert d.Get(c) >= 0;
      }
    }
  }

  /**
   * A stat block: minutes (carried through unchanged, never computed with)
   * and the thirteen counts.
   */
  datatype StatBlock = StatBlock(minutes: real, counts: Counts)

  /**
   * The wide per-game row: game id, the two tricodes and the four stat
   * blocks (home starters `hs_`, home team `ht_`, away starters `as_`,
   * away team `at_`). The id is the integer the table holds once it has
   * been written and read back.
   */
  datatype WideRow = WideRow(
    gameId: nat, homeTeam: string, awayTeam: string,
    homeStarters: StatBlock, homeTotal: StatBlock,
    awayStarters: StatBlock, awayTotal: StatBlock)
}
