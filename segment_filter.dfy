/**
 * The segmented player dashboard (app.py): the general view over the whole
 * table, and the filtered analysis that narrows the table by gender and by an
 * inclusive age range before computing its counts.
 */
module SegmentFilter {
  import Text

  /** One row of `online_gaming_insights.csv`: the columns this page reads. */
  datatype Player = Player(
    playerId: int, age: int, gender: string, location: string, gameGenre: string,
    playTimeHours: real, inGamePurchases: int, playerLevel: int)

  /** The sidebar: the general view, or the filtered analysis with its selected gender and age range. */
  datatype Mode = GeneralView | FilteredAnalysis(gender: string, ageLo: int, ageHi: int)

  /** The gender option that applies no restriction. */
  const AllGenders := "Todos"

  // ---------------------------------------------------------------------------
  // Filtering: the sidebar's gender and age filters
  // ---------------------------------------------------------------------------

  /** `a` is `b` with some rows removed and the rest in their original order. */
  predicate IsSubsequence(a: seq<Player>, b: seq<Player>)
  {
    a == [] || (b != [] && ((a[0] == b[0] && IsSubsequence(a[1..], b[1..])) || IsSubsequence(a, b[1..])))
  }

  /** The selection the filtered analysis stands for. */
  predicate InSegment(p: Player, gender: string, lo: int, hi: int)
  {
    (gender == AllGenders || p.gender == gender) && lo <= p.age <= hi
  }

  /** The rows of the segment, in table order: the reference the two filtering steps must meet. */
  function Segment(rows: seq<Player>, gender: string, lo: int, hi: int): (s: seq<Player>)
    ensures |s| <= |rows|
    ensures forall k :: 0 <= k < |s| ==> s[k] in rows && InSegment(s[k], gender, lo, hi)
    ensures forall p :: multiset(s)[p] == if InSegment(p, gender, lo, hi) then multiset(rows)[p] else 0
  {
    if rows == [] then []
    else
      assert rows == [rows[0]] + rows[1..];
      (if InSegment(rows[0], gender, lo, hi) then [rows[0]] else []) + Segment(rows[1..], gender, lo, hi)
  }

  /** `df[df['Gender'] == g]`. */
  function KeepGender(rows: seq<Player>, g: string): (r: seq<Player>)
    ensures forall p :: p in r <==> p in rows && p.gender == g
    ensures forall p :: multiset(r)[p] == if p.gender == g then multiset(rows)[p] else 0
    ensures |r| <= |rows|
  {
    if rows == [] then []
    else
      assert rows == [rows[0]] + rows[1..];
      (if rows[0].gender == g then [rows[0]] else []) + KeepGender(rows[1..], g)
  }

  /** `df[(df['Age'] >= lo) & (df['Age'] <= hi)]`. */
  function KeepAges(rows: seq<Player>, lo: int, hi: int): (r: seq<Player>)
    ensures forall p :: p in r <==> p in rows && lo <= p.age <= hi
    ensures forall p :: multiset(r)[p] == if lo <= p.age <= hi then multiset(rows)[p] else 0
    ensures |r| <= |rows|
  {
    if rows == [] then []
    else
      assert rows == [rows[0]] + rows[1..];
      (if lo <= rows[0].age <= hi then [rows[0]] else []) + KeepAges(rows[1..], lo, hi)
  }

  lemma KeepAgesCons(r: Player, rest: seq<Player>, lo: int, hi: int)
    ensures KeepAges([r] + rest, lo, hi) == (if lo <= r.age <= hi then [r] else []) + KeepAges(rest, lo, hi)
  {
    assert ([r] + rest)[0] == r && ([r] + rest)[1..] == rest;
  }

  /** The gender step followed by the age step gives exactly the segment. */
  lemma {:induction false} GenderThenAgesMakeSegment(rows: seq<Player>, gender: string, lo: int, hi: int)
    requires gender != AllGenders
    ensures KeepAges(KeepGender(rows, gender), lo, hi) == Segment(rows, gender, lo, hi)
  {
    if rows != [] {
      var r, rest := rows[0], rows[1..];
      GenderThenAgesMakeSegment(rest, gender, lo, hi);
      if r.gender == gender {
        assert KeepGender(rows, gender) == [r] + KeepGender(rest, gender);
        KeepAgesCons(r, KeepGender(rest, gender), lo, hi);
      } else {
        assert KeepGender(rows, gender) == KeepGender(rest, gender);
      }
    }
  }

  /** With 'Todos' the age step alone gives exactly the segment. */
  lemma {:induction false} AgesMakeSegment(rows: seq<Player>, lo: int, hi: int)
    ensures KeepAges(rows, lo, hi) == Segment(rows, AllGenders, lo, hi)
  {
    if rows != [] {
      AgesMakeSegment(rows[1..], lo, hi);
    }
  }

  /** `filtered_df` once the sidebar filters have been applied (the whole table in the general view). */
  method FilterRows(df: seq<Player>, mode: Mode) returns (filtered: seq<Player>)
    ensures mode.GeneralView? ==> filtered == df
    ensures mode.FilteredAnalysis? ==> filtered == Segment(df, mode.gender, mode.ageLo, mode.ageHi)
  {
    filtered := df;
    if mode.FilteredAnalysis? {
      if mode.gender != AllGenders {
        filtered := KeepGender(filtered, mode.gender);
      }
      filtered := KeepAges(filtered, mode.ageLo, mode.ageHi);
      if mode.gender != AllGenders {
        GenderThenAgesMakeSegment(df, mode.gender, mode.ageLo, mode.ageHi);
      } else {
        AgesMakeSegment(df, mode.ageLo, mode.ageHi);
      }
    }
  }

  /** A row is in the segment exactly when it is in the table and meets both filters (ages inclusive). */
  lemma {:induction false} SegmentMembers(rows: seq<Player>, gender: string, lo: int, hi: int)
    ensures forall p :: p in Segment(rows, gender, lo, hi) <==> p in rows && InSegment(p, gender, lo, hi)
  {
    if rows != [] {
      SegmentMembers(rows[1..], gender, lo, hi);
      assert rows == [rows[0]] + rows[1..];
    }
  }

  /** The segment keeps the table's order: it is a subsequence of it. */
  lemma {:induction false} SegmentIsSubsequence(rows: seq<Player>, gender: string, lo: int, hi: int)
    ensures IsSubsequence(Segment(rows, gender, lo, hi), rows)
  {
    if rows != [] {
      var rest := Segment(rows[1..], gender, lo, hi);
      SegmentIsSubsequence(rows[1..], gender, lo, hi);
      if InSegment(rows[0], gender, lo, hi) {
        assert ([rows[0]] + rest)[1..] == rest;
      } else {
        assert Segment(rows, gender, lo, hi) == rest;
      }
    }
  }

  /** The slider's range: the smallest and largest age in the table. */
  function MinAge(rows: seq<Player>): (m: int)
    requires rows != []
    ensures forall p :: p in rows ==> m <= p.age
    ensures exists p :: p in rows && p.age == m
  {
    if |rows| == 1 then rows[0].age
    else
      var rest := MinAge(rows[1..]);
      if rows[0].age <= rest then rows[0].age else rest
  }

  function MaxAge(rows: seq<Player>): (m: int)
    requires rows != []
    ensures forall p :: p in rows ==> p.age <= m
    ensures exists p :: p in rows && p.age == m
  {
    if |rows| == 1 then rows[0].age
    else
      var rest := MaxAge(rows[1..]);
      if rows[0].age >= rest then rows[0].age else rest
  }

  lemma {:induction false} SegmentOfEveryRow(rows: seq<Player>, gender: string, lo: int, hi: int)
    requires forall p :: p in rows ==> InSegment(p, gender, lo, hi)
    ensures Segment(rows, gender, lo, hi) == rows
  {
    if rows != [] {
      EveryRowCons(rows, gender, lo, hi);
      SegmentOfEveryRow(rows[1..], gender, lo, hi);
      SegmentCons(rows, gender, lo, hi);
    }
  }

  lemma SegmentCons(rows: seq<Player>, gender: string, lo: int, hi: int)
    requires rows != []
    ensures Segment(rows, gender, lo, hi) ==
      (if InSegment(rows[0], gender, lo, hi) then [rows[0]] else []) + Segment(rows[1..], gender, lo, hi)
  {
  }

  lemma EveryRowCons(rows: seq<Player>, gender: string, lo: int, hi: int)
    requires rows != [] && forall p :: p in rows ==> InSegment(p, gender, lo, hi)
    ensures InSegment(rows[0], gender, lo, hi) && rows == [rows[0]] + rows[1..]
    ensures forall p :: p in rows[1..] ==> InSegment(p, gender, lo, hi)
  {
    assert rows[0] in rows;
    assert forall p :: p in rows[1..] ==> p in rows;
  }

  /** With 'Todos' and the slider left at its default range, the filtered table is the whole table. */
  lemma DefaultFiltersKeepEverything(df: seq<Player>)
    requires df != []
    ensures Segment(df, AllGenders, MinAge(df), MaxAge(df)) == df
  {
    SegmentOfEveryRow(df, AllGenders, MinAge(df), MaxAge(df));
  }

  // ---------------------------------------------------------------------------
  // Counts
  // ---------------------------------------------------------------------------

  /** `(rows['InGamePurchases'] > 0).sum()`. */
  function Purchasers(rows: seq<Player>): (n: nat)
    ensures n <= |rows|
    ensures n == 0 <==> forall p :: p in rows ==> p.inGamePurchases <= 0
    ensures n == |rows| <==> forall p :: p in rows ==> p.inGamePurchases > 0
  {
    if rows == [] then 0
    else
      assert forall p :: p in rows <==> p == rows[0] || p in rows[1..];
      (if rows[0].inGamePurchases > 0 then 1 else 0) + Purchasers(rows[1..])
  }

  /** Number of rows of one game genre. */
  function GenreCount(rows: seq<Player>, genre: string): (n: nat)
    ensures n <= |rows|
  {
    if rows == [] then 0
    else (if rows[0].gameGenre == genre then 1 else 0) + GenreCount(rows[1..], genre)
  }

  lemma {:induction false} GenreCountPositive(rows: seq<Player>, k: nat)
    requires k < |rows|
    ensures GenreCount(rows, rows[k].gameGenre) >= 1
  {
    if k > 0 {
      assert rows[1..][k - 1] == rows[k];
      GenreCountPositive(rows[1..], k - 1);
    }
  }

  /** The genre among rows[k..] with the most rows in the whole table (the first such on a tie). */
  function MostPopularFrom(rows: seq<Player>, k: nat): (g: string)
    requires k < |rows|
    ensures exists j :: k <= j < |rows| && rows[j].gameGenre == g
    ensures forall j :: k <= j < |rows| ==> GenreCount(rows, rows[j].gameGenre) <= GenreCount(rows, g)
    decreases |rows| - k
  {
    if k == |rows| - 1 then rows[k].gameGenre
    else
      var rest := MostPopularFrom(rows, k + 1);
      if GenreCount(rows, rows[k].gameGenre) >= GenreCount(rows, rest) then rows[k].gameGenre else rest
  }

  /** `value_counts().index[0]` and `.values[0]`: a genre with the largest count, and that count. */
  function MostPopularGenre(rows: seq<Player>): (top: (string, nat))
    requires rows != []
    ensures top.1 == GenreCount(rows, top.0) && 1 <= top.1 <= |rows|
    ensures exists p :: p in rows && p.gameGenre == top.0
    ensures forall p :: p in rows ==> GenreCount(rows, p.gameGenre) <= top.1
  {
    var g := MostPopularFrom(rows, 0);
    var j :| 0 <= j < |rows| && rows[j].gameGenre == g;
    GenreCountPositive(rows, j);
    assert rows[j] in rows;
    (g, GenreCount(rows, g))
  }

  // ---------------------------------------------------------------------------
  // The active-filters caption
  // ---------------------------------------------------------------------------

  function AgeText(lo: int, hi: int): string
  {
    "Edad: " + Text.IntToString(lo) + "-" + Text.IntToString(hi) + " años"
  }

  /** The caption as the page shows it: the gender part only when a gender is chosen. */
  function FilterLabel(gender: string, lo: int, hi: int): string
  {
    if gender != AllGenders then "Género: " + gender + " | " + AgeText(lo, hi) else AgeText(lo, hi)
  }

  /** The list of parts built step by step, then `' | '.join(filter_text)`. */
  method ActiveFiltersLabel(gender: string, lo: int, hi: int) returns (caption: string)
    ensures caption == FilterLabel(gender, lo, hi)
  {
    var parts: seq<string> := [];
    if gender != AllGenders {
      parts := parts + ["Género: " + gender];
    }
    parts := parts + [AgeText(lo, hi)];
    caption := Text.Join(parts, " | ");
    if gender != AllGenders {
      assert Text.Join(parts, " | ") == parts[0] + " | " + Text.Join(parts[1..], " | ");
    }
  }

  // ---------------------------------------------------------------------------
  // The page
  // ---------------------------------------------------------------------------

  datatype Page =
    | Stopped                                          // no data: the page stops
    | Overview(totalPlayers: nat, purchasers: nat)     // the general view's metrics
    | EmptySegment(caption: string, shown: nat)        // the filters' caption and a warning, then stop
    | SegmentInsights(caption: string, totalFiltered: nat, purchasers: nat,
                      topGenre: string, topGenreCount: nat)  // the filtered metrics and the top genre

  /** What the page computes, for a mode chosen in the sidebar. */
  method Dashboard(df: seq<Player>, mode: Mode) returns (page: Page)
    ensures df == [] <==> page == Stopped
    ensures df != [] && mode.GeneralView? ==> page == Overview(|df|, Purchasers(df))
    ensures df != [] && mode.FilteredAnalysis? ==>
      var seg := Segment(df, mode.gender, mode.ageLo, mode.ageHi);
      var caption := FilterLabel(mode.gender, mode.ageLo, mode.ageHi);
      && (seg == [] ==> page == EmptySegment(caption, 0))
      && (seg != [] ==>
           && page.SegmentInsights? && page.caption == caption
           && 0 < page.totalFiltered == |seg| <= |df|
           && page.purchasers == Purchasers(seg)
           && page.topGenreCount == GenreCount(seg, page.topGenre)
           && forall p :: p in seg ==> GenreCount(seg, p.gameGenre) <= page.topGenreCount)
  {
    if df == [] {
      return Stopped;
    }
    var filtered := FilterRows(df, mode);
    if mode.GeneralView? {
      return Overview(|df|, Purchasers(df));
    }
    var caption := ActiveFiltersLabel(mode.gender, mode.ageLo, mode.ageHi);
    if filtered == [] {
      return EmptySegment(caption, |filtered|);
    }
    var top := MostPopularGenre(filtered);
    page := SegmentInsights(caption, |filtered|, Purchasers(filtered), top.0, top.1);
  }
}
