/**
 * The wide per-game table as a row of 59 cells: the game id, the home and
 * away tricodes, then four blocks of 14 stats (home starters, home team,
 * away starters, away team), each block in the order minutes, FGM, FGA,
 * 3PM, 3PA, FTM, FTA, OREB, DREB, AST, STL, BLK, TO, FOUL.
 */
module WideTable {
  import opened Wrappers
  import opened Stats

  datatype Cell = IdCell(id: nat) | TextCell(text: string) | MinutesCell(minutes: real) | CountCell(count: int)

  const RowWidth: nat := 59
  const BlockWidth: nat := 14

  datatype Group = HomeStarters | HomeTotal | AwayStarters | AwayTotal

  /** Column prefix of each block. */
  function Prefix(g: Group): string
  {
    match g
    case HomeStarters => "hs_"
    case HomeTotal => "ht_"
    case AwayStarters => "as_"
    case AwayTotal => "at_"
  }

  function GroupIndex(g: Group): (i: nat)
    ensures i < 4
  {
    match g
    case HomeStarters => 0
    case HomeTotal => 1
    case AwayStarters => 2
    case AwayTotal => 3
  }

  function Block(w: WideRow, g: Group): StatBlock
  {
    match g
    case HomeStarters => w.homeStarters
    case HomeTotal => w.homeTotal
    case AwayStarters => w.awayStarters
    case AwayTotal => w.awayTotal
  }

  /** Name of the k-th field of a block: minutes first, then the categories. */
  function FieldName(k: nat): string
    requires k < BlockWidth
  {
    if k == 0 then "minutes" else CategoryName(Categories[k - 1])
  }

  /** Value of the k-th field of a block, as a cell. */
  function FieldCell(b: StatBlock, k: nat): Cell
    requires k < BlockWidth
  {
    if k == 0 then MinutesCell(b.minutes) else CountCell(b.counts.Get(Categories[k - 1]))
  }

  /** Column of field k of block g in the wide table. */
  function ColumnIndex(g: Group, k: nat): (j: nat)
    requires k < BlockWidth
    ensures 3 <= j < RowWidth
  {
    3 + BlockWidth * GroupIndex(g) + k
  }

  /**
   * The column names of the wide table: the three identity columns, then
   * each block's fields under its prefix (`hs_minutes`, `hs_FGM`, ...,
   * `at_FOUL`).
   */
  const Header: seq<string> :=
    ["GAME_ID", "home_team", "away_team"]
    + BlockHeader("hs_") + BlockHeader("ht_") + BlockHeader("as_") + BlockHeader("at_")

  /** The header names every stat column by its block prefix and field name. */
  lemma HeaderLayout(g: Group, k: nat)
    requires k < BlockWidth
    ensures |Header| == RowWidth
    ensures Header[..3] == ["GAME_ID", "home_team", "away_team"]
    ensures Header[ColumnIndex(g, k)] == Prefix(g) + FieldName(k)
  {
    assert Header[..3] == ["GAME_ID", "home_team", "away_team"];
    var i := BlockWidth * GroupIndex(g);
    assert Header[3 + i..17 + i] == BlockHeader(Prefix(g));
    BlockHeaderAt(Prefix(g), k);
  }

  /** The 14 column names of the block with prefix p. */
  function BlockHeader(p: string): seq<string>
  {
    [p + "minutes", p + "FGM", p + "FGA", p + "3PM", p + "3PA", p + "FTM", p + "FTA",
     p + "OREB", p + "DREB", p + "AST", p + "STL", p + "BLK", p + "TO", p + "FOUL"]
  }

  lemma BlockHeaderAt(p: string, k: nat)
    requires k < BlockWidth
    ensures |BlockHeader(p)| == BlockWidth && BlockHeader(p)[k] == p + FieldName(k)
  {
  }

  /** One stat block, in the order the row lists it. */
  function BlockCells(b: StatBlock): seq<Cell>
  {
    [MinutesCell(b.minutes), CountCell(b.counts.fgm), CountCell(b.counts.fga),
     CountCell(b.counts.fg3m), CountCell(b.counts.fg3a), CountCell(b.counts.ftm),
     CountCell(b.counts.fta), CountCell(b.counts.oreb), CountCell(b.counts.dreb),
     CountCell(b.counts.ast), CountCell(b.counts.stl), CountCell(b.counts.blk),
     CountCell(b.counts.to), CountCell(b.counts.foul)]
  }

  lemma BlockCellsAt(b: StatBlock, k: nat)
    requires k < BlockWidth
    ensures |BlockCells(b)| == BlockWidth && BlockCells(b)[k] == FieldCell(b, k)
  {
  }

  /** The wide row as the 59 cells appended to the table. */
  function Flatten(w: WideRow): (cells: seq<Cell>)
    ensures |cells| == RowWidth
    ensures cells[0] == IdCell(w.gameId) && cells[1] == TextCell(w.homeTeam) && cells[2] == TextCell(w.awayTeam)
    ensures forall g: Group, k: nat :: k < BlockWidth ==> cells[ColumnIndex(g, k)] == FieldCell(Block(w, g), k)
  {
    var cells := [IdCell(w.gameId), TextCell(w.homeTeam), TextCell(w.awayTeam)]
      + BlockCells(w.homeStarters) + BlockCells(w.homeTotal)
      + BlockCells(w.awayStarters) + BlockCells(w.awayTotal);
    assert forall g: Group, k: nat :: k < BlockWidth ==> cells[ColumnIndex(g, k)] == FieldCell(Block(w, g), k) by {
      forall g: Group, k: nat | k < BlockWidth
        ensures cells[ColumnIndex(g, k)] == FieldCell(Block(w, g), k)
      {
        BlockCellsAt(Block(w, g), k);
      }
    }
    cells
  }

  /** Reads one block back from its 14 cells, if each cell has the right kind. */
  function UnflattenBlock(cs: seq<Cell>): Option<StatBlock>
    requires |cs| == BlockWidth
  {
    if cs[0].MinutesCell? && forall k :: 1 <= k < BlockWidth ==> cs[k].CountCell? then
      Some(StatBlock(cs[0].minutes, Counts(
        cs[1].count, cs[2].count, cs[3].count, cs[4].count, cs[5].count, cs[6].count,
        cs[7].count, cs[8].count, cs[9].count, cs[10].count, cs[11].count, cs[12].count,
        cs[13].count)))
    else
      None
  }

  /** Reads a wide row back from 59 cells, if it has that shape. */
  function Unflatten(cells: seq<Cell>): Option<WideRow>
  {
    if |cells| == RowWidth && cells[0].IdCell? && cells[1].TextCell? && cells[2].TextCell? then
      match (UnflattenBlock(cells[3..17]), UnflattenBlock(cells[17..31]),
             UnflattenBlock(cells[31..45]), UnflattenBlock(cells[45..59]))
      case (Some(hs), Some(ht), Some(aws), Some(awt)) =>
        Some(WideRow(cells[0].id, cells[1].text, cells[2].text, hs, ht, aws, awt))
      case _ => None
    else
      None
  }

  lemma BlockRoundTrip(b: StatBlock)
    ensures UnflattenBlock(BlockCells(b)) == Some(b)
  {
  }

  lemma {:induction false} BlockInverse(cs: seq<Cell>)
    requires |cs| == BlockWidth && UnflattenBlock(cs).Some?
    ensures BlockCells(UnflattenBlock(cs).value) == cs
  {
  }

  /** Reading a flattened row back gives the row again. */
  lemma FlattenRoundTrip(w: WideRow)
    ensures Unflatten(Flatten(w)) == Some(w)
  {
    var cells := Flatten(w);
    var ident := [IdCell(w.gameId), TextCell(w.homeTeam), TextCell(w.awayTeam)];
    var hs, ht := ident + BlockCells(w.homeStarters), ident + BlockCells(w.homeStarters) + BlockCells(w.homeTotal);
    var front := ht + BlockCells(w.awayStarters);
    assert |hs| == 17 && |ht| == 31 && |front| == 45;
    assert cells == front + BlockCells(w.awayTotal);
    assert cells[3..17] == hs[3..17] == BlockCells(w.homeStarters);
    assert cells[17..31] == ht[17..31] == BlockCells(w.homeTotal);
    assert cells[31..45] == front[31..45] == BlockCells(w.awayStarters);
    assert cells[45..59] == BlockCells(w.awayTotal);
    BlockRoundTrip(w.homeStarters);
    BlockRoundTrip(w.homeTotal);
    BlockRoundTrip(w.awayStarters);
    BlockRoundTrip(w.awayTotal);
  }

  /** Every row that reads back is the flattening of what it reads back as. */
  lemma {:induction false} UnflattenInverse(cells: seq<Cell>)
    requires Unflatten(cells).Some?
    ensures Flatten(Unflatten(cells).value) == cells
  {
    var w := Unflatten(cells).value;
    BlockInverse(cells[3..17]);
    BlockInverse(cells[17..31]);
    BlockInverse(cells[31..45]);
    BlockInverse(cells[45..59]);
    assert cells == cells[..3] + cells[3..17] + cells[17..31] + cells[31..45] + cells[45..59];
  }
}
