/**
 * Reshaping the wide per-game table into the per-team analysis table:
 * bench counts derived as team total minus starters, team totals dropped,
 * each game split into a home-origin and an away-origin row under one
 * column vocabulary, halftime points computed from made baskets, and an
 * inner self-join that attaches the opponent's halftime points.
 */
module Reshape {
  import opened Text
  import opened Stats

  /**
   * A wide row after bench derivation and the drop of the team totals:
   * no team-total block is left in it.
   */
  datatype BenchedRow = BenchedRow(
    gameId: nat, homeTeam: string, awayTeam: string,
    homeStarters: StatBlock, awayStarters: StatBlock,
    homeBench: Counts, awayBench: Counts)

  /** Bench counts (`hb_`, `ab_`) for the 13 categories; minutes get no bench value. */
  function DeriveBench(w: WideRow): (b: BenchedRow)
    ensures b.gameId == w.gameId && b.homeTeam == w.homeTeam && b.awayTeam == w.awayTeam
    ensures b.homeStarters == w.homeStarters && b.awayStarters == w.awayStarters
    ensures forall c: Category :: b.homeBench.Get(c) == w.homeTotal.counts.Get(c) - w.homeStarters.counts.Get(c)
    ensures forall c: Category :: b.awayBench.Get(c) == w.awayTotal.counts.Get(c) - w.awayStarters.counts.Get(c)
  {
    BenchedRow(w.gameId, w.homeTeam, w.awayTeam, w.homeStarters, w.awayStarters,
               Sub(w.homeTotal.counts, w.homeStarters.counts),
               Sub(w.awayTotal.counts, w.awayStarters.counts))
  }

  /** Starters plus bench give back the dropped team totals: nothing is lost but minutes. */
  lemma BenchRestoresTotals(w: WideRow)
    ensures Add(DeriveBench(w).homeStarters.counts, DeriveBench(w).homeBench) == w.homeTotal.counts
    ensures Add(DeriveBench(w).awayStarters.counts, DeriveBench(w).awayBench) == w.awayTotal.counts
  {
    SubAddRoundTrip(w.homeTotal.counts, w.homeStarters.counts);
    SubAddRoundTrip(w.awayTotal.counts, w.awayStarters.counts);
  }

  /** Bench counts are non-negative exactly when team totals dominate starter totals. */
  lemma BenchNonNegative(w: WideRow)
    ensures (forall c: Category :: DeriveBench(w).homeBench.Get(c) >= 0)
       <==> (forall c: Category :: w.homeTotal.counts.Get(c) >= w.homeStarters.counts.Get(c))
    ensures (forall c: Category :: DeriveBench(w).awayBench.Get(c) >= 0)
       <==> (forall c: Category :: w.awayTotal.counts.Get(c) >= w.awayStarters.counts.Get(c))
  {
    assert DeriveBench(w).homeBench == Sub(w.homeTotal.counts, w.homeStarters.counts);
    assert DeriveBench(w).awayBench == Sub(w.awayTotal.counts, w.awayStarters.counts);
    SubNonNegative(w.homeTotal.counts, w.homeStarters.counts);
    SubNonNegative(w.awayTotal.counts, w.awayStarters.counts);
  }

  datatype Side = Home | Away

  /**
   * One team's row of a game, in the shared vocabulary: `team`,
   * `against`, starter block `s_`, bench block `b_` and the origin label.
   */
  datatype LongRow = LongRow(gameId: nat, team: string, against: string, starters: StatBlock, bench: Counts, side: Side)

  /** The home-origin row: `hs_`/`hb_` become `s_`/`b_`, the home team is `team`. */
  function HomeRow(b: BenchedRow): LongRow
  {
    LongRow(b.gameId, b.homeTeam, b.awayTeam, b.homeStarters, b.homeBench, Home)
  }

  /** The away-origin row: `as_`/`ab_` become `s_`/`b_`, the away team is `team`. */
  function AwayRow(b: BenchedRow): LongRow
  {
    LongRow(b.gameId, b.awayTeam, b.homeTeam, b.awayStarters, b.awayBench, Away)
  }

  /**
   * Wide to long: all home-origin rows in input order, then all
   * away-origin rows in input order, so rows i and N + i describe game i.
   */
  function Reshape(t: seq<WideRow>): (r: seq<LongRow>)
    ensures |r| == 2 * |t|
    ensures forall i {:trigger t[i]} :: 0 <= i < |t| ==>
      r[i] == HomeRow(DeriveBench(t[i])) && r[|t| + i] == AwayRow(DeriveBench(t[i]))
  {
    var b := seq(|t|, i requires 0 <= i < |t| => DeriveBench(t[i]));
    seq(|b|, i requires 0 <= i < |b| => HomeRow(b[i])) + seq(|b|, i requires 0 <= i < |b| => AwayRow(b[i]))
  }

  /** Halftime points: two-point makes (FGM minus 3PM) at 2, threes at 3, free throws at 1. */
  function PtsHt(r: LongRow): int
  {
    var s := r.starters.counts;
    var b := r.bench;
    (s.fgm + b.fgm - (s.fg3m + b.fg3m)) * 2 + (s.fg3m + b.fg3m) * 3 + (s.ftm + b.ftm) * 1
  }

  /** Points from team-level made baskets: 2 per field goal, 1 more per three, 1 per free throw. */
  function TeamPoints(c: Counts): int
  {
    2 * c.fgm + c.fg3m + c.ftm
  }

  /** Halftime points depend only on the team totals (starters plus bench). */
  lemma PtsHtIsTeamPoints(r: LongRow)
    ensures PtsHt(r) == TeamPoints(Add(r.starters.counts, r.bench))
  {
  }

  lemma PtsHtExample()
    ensures PtsHt(LongRow(0, "", "", StatBlock(0.0, Counts(10, 0, 2, 0, 3, 0, 0, 0, 0, 0, 0, 0, 0)),
                          Counts(5, 0, 1, 0, 2, 0, 0, 0, 0, 0, 0, 0, 0), Home)) == 38
  {
  }

  /** The row's own join key: printed game id followed by the team. */
  function KeyTeam(r: LongRow): string { Decimal(r.gameId) + r.team }

  /** The key the row is looked up by: printed game id followed by the opponent. */
  function KeyAgainst(r: LongRow): string { Decimal(r.gameId) + r.against }

  /**
   * For codes of equal length the concatenated keys identify game and
   * team: equal keys mean the same game and the same code.
   */
  lemma KeyMatch(l: LongRow, o: LongRow)
    requires |l.team| == |o.against|
    ensures KeyAgainst(o) == KeyTeam(l) <==> o.gameId == l.gameId && o.against == l.team
  {
    if KeyAgainst(o) == KeyTeam(l) {
      var a, b := Decimal(o.gameId), Decimal(l.gameId);
      assert |a| == |b|;
      assert a == KeyAgainst(o)[..|a|] && b == KeyTeam(l)[..|b|];
      assert o.against == KeyAgainst(o)[|a|..] && l.team == KeyTeam(l)[|b|..];
      DecimalInjective(o.gameId, l.gameId);
    }
  }

  /**
   * A row of the analysis table: the long row's columns with `home` as
   * 1 or 0 and the two halftime scores; the key columns are gone.
   */
  datatype AnalysisRow = AnalysisRow(
    gameId: nat, team: string, against: string, starters: StatBlock, bench: Counts,
    home: int, ptsHt: int, ptsHtOpp: int)

  function HomeFlag(s: Side): int { if s == Home then 1 else 0 }

  /** The merged row of left row l and matching right row o. */
  function Annotate(l: LongRow, o: LongRow): AnalysisRow
  {
    AnalysisRow(l.gameId, l.team, l.against, l.starters, l.bench, HomeFlag(l.side), PtsHt(l), PtsHt(o))
  }

  /** The merged rows of one left row: one per right row whose `against` key equals its `team` key, in right order. */
  function Matches(l: LongRow, right: seq<LongRow>): seq<AnalysisRow>
  {
    if right == [] then []
    else (if KeyAgainst(right[0]) == KeyTeam(l) then [Annotate(l, right[0])] else []) + Matches(l, right[1..])
  }

  /** The inner merge: left rows in order, each followed by all its matches. */
  function Merge(left: seq<LongRow>, right: seq<LongRow>): seq<AnalysisRow>
  {
    if left == [] then [] else Matches(left[0], right) + Merge(left[1..], right)
  }

  /** The whole transformation from the wide table to the analysis table. */
  function Transform(t: seq<WideRow>): seq<AnalysisRow>
  {
    var r := Reshape(t);
    Merge(r, r)
  }

  /** A left row yields nothing exactly when no right row matches it. */
  lemma {:induction false} MatchesEmpty(l: LongRow, right: seq<LongRow>)
    ensures Matches(l, right) == [] <==> forall j :: 0 <= j < |right| ==> KeyAgainst(right[j]) != KeyTeam(l)
  {
    if right != [] {
      MatchesEmpty(l, right[1..]);
      assert forall j :: 1 <= j < |right| ==> right[j] == right[1..][j - 1];
    }
  }

  /** A left row with exactly one matching right row yields exactly one merged row. */
  lemma {:induction false} MatchesUnique(l: LongRow, right: seq<LongRow>, p: nat)
    requires p < |right|
    requires forall j :: 0 <= j < |right| ==> (KeyAgainst(right[j]) == KeyTeam(l) <==> j == p)
    ensures Matches(l, right) == [Annotate(l, right[p])]
  {
    assert forall j :: 1 <= j < |right| ==> right[j] == right[1..][j - 1];
    if p == 0 {
      MatchesEmpty(l, right[1..]);
    } else {
      MatchesUnique(l, right[1..], p - 1);
    }
  }

  /** Every merged row joins a left row with a right row whose `against` key equals its `team` key. */
  lemma {:induction false} MatchesSound(l: LongRow, right: seq<LongRow>, x: AnalysisRow)
    requires x in Matches(l, right)
    ensures exists j :: 0 <= j < |right| && KeyAgainst(right[j]) == KeyTeam(l) && x == Annotate(l, right[j])
  {
    if KeyAgainst(right[0]) == KeyTeam(l) && x == Annotate(l, right[0]) {
    } else {
      MatchesSound(l, right[1..], x);
      var j :| 0 <= j < |right[1..]| && KeyAgainst(right[1..][j]) == KeyTeam(l) && x == Annotate(l, right[1..][j]);
      assert right[1..][j] == right[j + 1];
    }
  }

  lemma {:induction false} MergeSound(left: seq<LongRow>, right: seq<LongRow>, x: AnalysisRow)
    requires x in Merge(left, right)
    ensures exists i, j ::
      0 <= i < |left| && 0 <= j < |right| && KeyAgainst(right[j]) == KeyTeam(left[i]) && x == Annotate(left[i], right[j])
  {
    if x in Matches(left[0], right) {
      MatchesSound(left[0], right, x);
      var j :| 0 <= j < |right| && KeyAgainst(right[j]) == KeyTeam(left[0]) && x == Annotate(left[0], right[j]);
      assert 0 < |left|;
    } else {
      MergeSound(left[1..], right, x);
      var i, j :| 0 <= i < |left[1..]| && 0 <= j < |right|
        && KeyAgainst(right[j]) == KeyTeam(left[1..][i]) && x == Annotate(left[1..][i], right[j]);
      assert left[1..][i] == left[i + 1];
    }
  }

  /** The number of right rows whose `against` key equals the `team` key of l. */
  function MatchCount(l: LongRow, right: seq<LongRow>): nat
  {
    if right == [] then 0
    else MatchCount(l, right[..|right| - 1]) + if KeyAgainst(right[|right| - 1]) == KeyTeam(l) then 1 else 0
  }

  /** Matching against a concatenation of right rows matches each part in turn. */
  lemma {:induction false} MatchesAppend(l: LongRow, a: seq<LongRow>, b: seq<LongRow>)
    ensures Matches(l, a + b) == Matches(l, a) + Matches(l, b)
  {
    if a == [] {
      assert a + b == b;
    } else {
      assert (a + b)[0] == a[0] && (a + b)[1..] == a[1..] + b;
      MatchesAppend(l, a[1..], b);
    }
  }

  /** A left row yields exactly one merged row per matching right row. */
  lemma {:induction false} MatchesCount(l: LongRow, right: seq<LongRow>)
    ensures |Matches(l, right)| == MatchCount(l, right)
  {
    if right != [] {
      var p, last := right[..|right| - 1], right[|right| - 1];
      assert right == p + [last];
      MatchesAppend(l, p, [last]);
      assert [last][1..] == [];
      MatchesCount(l, p);
    }
  }

  /** Every right row whose key matches yields a merged row. */
  lemma {:induction false} MatchesComplete(l: LongRow, right: seq<LongRow>, j: nat)
    requires j < |right| && KeyAgainst(right[j]) == KeyTeam(l)
    ensures Annotate(l, right[j]) in Matches(l, right)
  {
    if j > 0 {
      assert right[1..][j - 1] == right[j];
      MatchesComplete(l, right[1..], j - 1);
    }
  }

  /** Every matching pair of a left row and a right row appears in the merge. */
  lemma {:induction false} MergeComplete(left: seq<LongRow>, right: seq<LongRow>, i: nat, j: nat)
    requires i < |left| && j < |right| && KeyAgainst(right[j]) == KeyTeam(left[i])
    ensures Annotate(left[i], right[j]) in Merge(left, right)
  {
    if i == 0 {
      MatchesComplete(left[0], right, j);
    } else {
      assert left[1..][i - 1] == left[i];
      MergeComplete(left[1..], right, i - 1, j);
    }
  }

  /** The number of merged rows: for every left row, the number of right rows it matches. */
  function MergeCount(left: seq<LongRow>, right: seq<LongRow>): nat
  {
    if left == [] then 0 else MergeCount(left[..|left| - 1], right) + MatchCount(left[|left| - 1], right)
  }

  /** The merge has one row per matching (left row, right row) pair, so duplicates multiply. */
  lemma {:induction false} MergeSize(left: seq<LongRow>, right: seq<LongRow>)
    ensures |Merge(left, right)| == MergeCount(left, right)
  {
    if left != [] {
      var p, last := left[..|left| - 1], left[|left| - 1];
      assert left == p + [last];
      MergeAppend(p, [last], right);
      assert [last][1..] == [];
      MatchesCount(last, right);
      MergeSize(p, right);
    }
  }

  /** The merge works row by row: merging a concatenation merges each part. */
  lemma {:induction false} MergeAppend(a: seq<LongRow>, b: seq<LongRow>, right: seq<LongRow>)
    ensures Merge(a + b, right) == Merge(a, right) + Merge(b, right)
  {
    if a != [] {
      assert (a + b)[1..] == a[1..] + b;
      MergeAppend(a[1..], b, right);
    } else {
      assert a + b == b;
    }
  }

  /** A left row that no right row matches disappears from the merge. */
  lemma {:induction false} UnmatchedRowDropped(a: seq<LongRow>, l: LongRow, b: seq<LongRow>, right: seq<LongRow>)
    requires forall j :: 0 <= j < |right| ==> KeyAgainst(right[j]) != KeyTeam(l)
    ensures Merge(a + [l] + b, right) == Merge(a + b, right)
  {
    MatchesEmpty(l, right);
    assert Merge([l], right) == [] by {
      assert [l][1..] == [];
    }
    calc {
      Merge(a + [l] + b, right);
      { MergeAppend(a + [l], b, right); }
      Merge(a + [l], right) + Merge(b, right);
      { MergeAppend(a, [l], right); }
      Merge(a, right) + Merge(b, right);
      { MergeAppend(a, b, right); }
      Merge(a + b, right);
    }
  }

  /** When every left row has exactly one match, the merge is one row per left row, in left order. */
  lemma {:induction false} MergeUnique(left: seq<LongRow>, right: seq<LongRow>, partner: seq<nat>)
    requires |partner| == |left|
    requires forall i :: 0 <= i < |left| ==> partner[i] < |right|
    requires forall i, j :: 0 <= i < |left| && 0 <= j < |right| ==>
      (KeyAgainst(right[j]) == KeyTeam(left[i]) <==> j == partner[i])
    ensures |Merge(left, right)| == |left|
    ensures forall i {:trigger Merge(left, right)[i]} :: 0 <= i < |left| ==>
      Merge(left, right)[i] == Annotate(left[i], right[partner[i]])
  {
    if left != [] {
      MatchesUnique(left[0], right, partner[0]);
      MergeUnique(left[1..], right, partner[1..]);
      assert forall i :: 1 <= i < |left| ==> left[i] == left[1..][i - 1] && partner[i] == partner[1..][i - 1];
    }
  }

  predicate IsTricode(s: string) { |s| == 3 }

  /**
   * A batch in which every game appears once and names two different
   * three-letter teams.
   */
  predicate WellFormedTable(t: seq<WideRow>)
  {
    && (forall i, j :: 0 <= i < j < |t| ==> t[i].gameId != t[j].gameId)
    && (forall i :: 0 <= i < |t| ==>
          IsTricode(t[i].homeTeam) && IsTricode(t[i].awayTeam) && t[i].homeTeam != t[i].awayTeam)
  }

  /** The other row of the same game: N + i for a home row i, i - N for an away row. */
  function Partner(i: nat, n: nat): nat
  {
    if i < n then i + n else i - n
  }

  /** In a well-formed batch each reshaped row matches exactly its partner row. */
  lemma {:induction false} ReshapeMatchesPartner(t: seq<WideRow>, i: nat, j: nat)
    requires WellFormedTable(t)
    requires i < 2 * |t| && j < 2 * |t|
    ensures var r := Reshape(t); KeyAgainst(r[j]) == KeyTeam(r[i]) <==> j == Partner(i, |t|)
  {
    var r, n := Reshape(t), |t|;
    var gi := if i < n then i else i - n;
    var gj := if j < n then j else j - n;
    var wi, wj := t[gi], t[gj];
    KeyMatch(r[i], r[j]);
    assert r[j].gameId == r[i].gameId <==> gj == gi by {
      if gi < gj { assert t[gi].gameId != t[gj].gameId; }
      if gj < gi { assert t[gj].gameId != t[gi].gameId; }
    }
  }

  lemma {:induction false} PartnerIsOnlyMatch(t: seq<WideRow>, partner: seq<nat>)
    requires WellFormedTable(t)
    requires |partner| == 2 * |t| && forall i :: 0 <= i < 2 * |t| ==> partner[i] == Partner(i, |t|)
    ensures var r := Reshape(t);
      forall i, j :: 0 <= i < |r| && 0 <= j < |r| ==> (KeyAgainst(r[j]) == KeyTeam(r[i]) <==> j == partner[i])
  {
    forall i, j | 0 <= i < 2 * |t| && 0 <= j < 2 * |t|
      ensures KeyAgainst(Reshape(t)[j]) == KeyTeam(Reshape(t)[i]) <==> j == partner[i]
    {
      ReshapeMatchesPartner(t, i, j);
    }
  }

  /** In a well-formed batch the merge pairs every reshaped row with the other row of its game, and nothing else. */
  lemma {:induction false} TransformPairsPartners(t: seq<WideRow>)
    requires WellFormedTable(t)
    ensures |Transform(t)| == 2 * |t|
    ensures forall i {:trigger t[i]} :: 0 <= i < |t| ==>
      && Transform(t)[i] == Annotate(Reshape(t)[i], Reshape(t)[|t| + i])
      && Transform(t)[|t| + i] == Annotate(Reshape(t)[|t| + i], Reshape(t)[i])
  {
    var r, n := Reshape(t), |t|;
    var partner := seq(2 * n, i requires 0 <= i < 2 * n => Partner(i, n));
    PartnerIsOnlyMatch(t, partner);
    MergeUnique(r, r, partner);
    assert Transform(t) == Merge(r, r);
    forall i | 0 <= i < n
      ensures Merge(r, r)[i] == Annotate(r[i], r[n + i])
      ensures Merge(r, r)[n + i] == Annotate(r[n + i], r[i])
    {
      assert partner[i] == n + i && partner[n + i] == i;
    }
  }

  /**
   * The analysis table of a well-formed batch of N games: 2N rows, row i
   * the home team of game i and row N + i its away team, each with its
   * own starters, bench and halftime points, and the opponent's halftime
   * points taken from the other row of the same game.
   */
  lemma {:induction false} TransformWellFormed(t: seq<WideRow>)
    requires WellFormedTable(t)
    ensures |Transform(t)| == 2 * |t|
    ensures forall i {:trigger t[i]} :: 0 <= i < |t| ==>
      var home, away := Transform(t)[i], Transform(t)[|t| + i];
      && home.gameId == t[i].gameId && away.gameId == t[i].gameId
      && home.team == t[i].homeTeam && home.against == t[i].awayTeam && home.home == 1
      && away.team == t[i].awayTeam && away.against == t[i].homeTeam && away.home == 0
      && home.starters == t[i].homeStarters && home.bench == Sub(t[i].homeTotal.counts, t[i].homeStarters.counts)
      && away.starters == t[i].awayStarters && away.bench == Sub(t[i].awayTotal.counts, t[i].awayStarters.counts)
      && home.ptsHt == TeamPoints(t[i].homeTotal.counts) && away.ptsHt == TeamPoints(t[i].awayTotal.counts)
      && home.ptsHtOpp == away.ptsHt && away.ptsHtOpp == home.ptsHt
  {
    var r, n, out := Reshape(t), |t|, Transform(t);
    TransformPairsPartners(t);
    forall i | 0 <= i < n
      ensures out[i].team == t[i].homeTeam && out[n + i].team == t[i].awayTeam
      ensures out[i].ptsHt == TeamPoints(t[i].homeTotal.counts) && out[n + i].ptsHt == TeamPoints(t[i].awayTotal.counts)
    {
      var w := t[i];
      assert out[i] == Annotate(r[i], r[n + i]);
      assert out[n + i] == Annotate(r[n + i], r[i]);
      PtsHtIsTeamPoints(r[i]);
      PtsHtIsTeamPoints(r[n + i]);
      SubAddRoundTrip(w.homeTotal.counts, w.homeStarters.counts);
      SubAddRoundTrip(w.awayTotal.counts, w.awayStarters.counts);
    }
  }

  /**
   * With three-letter codes, every analysis row joins a reshaped row with
   * a row of the same game whose `against` is its `team`, and takes that
   * row's halftime points as `ptsHtOpp`.
   */
  lemma {:induction false} TransformSound(t: seq<WideRow>, x: AnalysisRow)
    requires forall k :: 0 <= k < |t| ==> IsTricode(t[k].homeTeam) && IsTricode(t[k].awayTeam)
    requires x in Transform(t)
    ensures exists i, j ::
      0 <= i < 2 * |t| && 0 <= j < 2 * |t| && SameGameOpponent(Reshape(t), i, j) && x == Annotate(Reshape(t)[i], Reshape(t)[j])
  {
    var r, n := Reshape(t), |t|;
    assert Transform(t) == Merge(r, r);
    MergeSound(r, r, x);
    var i, j :| 0 <= i < |r| && 0 <= j < |r| && KeyAgainst(r[j]) == KeyTeam(r[i]) && x == Annotate(r[i], r[j]);
    ReshapeTricodes(t, i);
    ReshapeTricodes(t, j);
    KeyMatch(r[i], r[j]);
    assert SameGameOpponent(r, i, j);
  }

  /** Every reshaped row of a batch with three-letter codes carries three-letter codes. */
  lemma {:induction false} ReshapeTricodes(t: seq<WideRow>, i: nat)
    requires forall k :: 0 <= k < |t| ==> IsTricode(t[k].homeTeam) && IsTricode(t[k].awayTeam)
    requires i < 2 * |t|
    ensures IsTricode(Reshape(t)[i].team) && IsTricode(Reshape(t)[i].against)
  {
    var n := |t|;
    var g := if i < n then i else i - n;
    var w := t[g];
    assert Reshape(t)[i] == if i < n then HomeRow(DeriveBench(w)) else AwayRow(DeriveBench(w));
  }

  /** Row j of r is of the same game as row i and plays against row i's team. */
  predicate SameGameOpponent(r: seq<LongRow>, i: int, j: int)
  {
    0 <= i < |r| && 0 <= j < |r| && r[j].gameId == r[i].gameId && r[j].against == r[i].team
  }

  lemma {:induction false} MatchesOfFour(l: LongRow, r: seq<LongRow>)
    requires |r| == 4
    ensures |Matches(l, r)| ==
      (if KeyAgainst(r[0]) == KeyTeam(l) then 1 else 0) + (if KeyAgainst(r[1]) == KeyTeam(l) then 1 else 0)
      + (if KeyAgainst(r[2]) == KeyTeam(l) then 1 else 0) + (if KeyAgainst(r[3]) == KeyTeam(l) then 1 else 0)
  {
    var r1, r2, r3 := r[1..], r[2..], r[3..];
    assert r1[1..] == r2 && r2[1..] == r3 && r3[1..] == [];
    assert r1[0] == r[1] && r2[0] == r[2] && r3[0] == r[3];
    assert |Matches(l, r3)| == (if KeyAgainst(r[3]) == KeyTeam(l) then 1 else 0);
    assert |Matches(l, r2)| == (if KeyAgainst(r[2]) == KeyTeam(l) then 1 else 0) + |Matches(l, r3)|;
    assert |Matches(l, r1)| == (if KeyAgainst(r[1]) == KeyTeam(l) then 1 else 0) + |Matches(l, r2)|;
  }

  /** A game listed twice is not de-duplicated: each of its four rows matches twice. */
  lemma DuplicateGameMultiplies(w: WideRow)
    requires WellFormedTable([w])
    ensures |Transform([w, w])| == 8
  {
    var r := Reshape([w, w]);
    forall i, j | 0 <= i < 4 && 0 <= j < 4
      ensures KeyAgainst(r[j]) == KeyTeam(r[i]) <==> (i < 2 <==> j >= 2)
    {
      KeyMatch(r[i], r[j]);
    }
    MatchesOfFour(r[0], r);
    MatchesOfFour(r[1], r);
    MatchesOfFour(r[2], r);
    MatchesOfFour(r[3], r);
    var r1, r2, r3 := r[1..], r[2..], r[3..];
    assert r1[1..] == r2 && r2[1..] == r3 && r3[1..] == [];
    assert r1[0] == r[1] && r2[0] == r[2] && r3[0] == r[3];
    assert Merge(r3, r) == Matches(r[3], r);
    assert Merge(r2, r) == Matches(r[2], r) + Merge(r3, r);
    assert Merge(r1, r) == Matches(r[1], r) + Merge(r2, r);
    assert Transform([w, w]) == Matches(r[0], r) + Merge(r1, r);
  }
}
