/**
 * The anime KPI dashboard (actividades_completas/app_crunchy.py): cleaning of
 * the loaded table, the per-genre explosion, the genre and type tables sorted
 * in descending order, the top-N rankings and the name truncation of the listing.
 */
module AnimeKpis {
  import opened Wrappers
  import Text

  // ---------------------------------------------------------------------------
  // The loaded table and its cleaning
  // ---------------------------------------------------------------------------

  /** The text put in place of a missing genre or type. */
  const Unknown := "unknown"

  /** `str.split` separator for the genre list. */
  const GenreSeparator := ", "

  /** `column.fillna(default)`: missing cells take the default, present cells are kept. */
  function FillNa<T>(column: seq<Option<T>>, default: T): (filled: seq<Option<T>>)
    ensures |filled| == |column|
    ensures forall i :: 0 <= i < |column| && column[i].None? ==> filled[i] == Some(default)
    ensures forall i :: 0 <= i < |column| && column[i].Some? ==> filled[i] == column[i]
  {
    if column == [] then [] else [Some(column[0].GetOr(default))] + FillNa(column[1..], default)
  }

  ghost predicate NoneMissing<T>(column: seq<Option<T>>)
  {
    forall i :: 0 <= i < |column| ==> column[i].Some?
  }

  /** `genre.str.split(', ')` on a column without missing cells. */
  function SplitGenres(genre: seq<Option<string>>): (lists: seq<seq<string>>)
    requires NoneMissing(genre)
    ensures |lists| == |genre|
    ensures forall i :: 0 <= i < |genre| ==> lists[i] == Text.Split(genre[i].value, GenreSeparator)
  {
    if genre == [] then [] else [Text.Split(genre[0].value, GenreSeparator)] + SplitGenres(genre[1..])
  }

  /** One row once cleaned; `kind` is the `type` column. */
  datatype Anime = Anime(animeId: int, name: string, genre: string, kind: string,
                         rating: real, members: int, genreList: seq<string>)

  /** The DataFrame of `anime.csv`, column by column, as the script overwrites it in place. */
  class AnimeFrame {
    var animeId: seq<int>
    var name: seq<string>
    var genre: seq<Option<string>>
    var kind: seq<Option<string>>
    var rating: seq<Option<real>>
    var members: seq<int>
    var genreList: Option<seq<seq<string>>>

    ghost predicate Valid()
      reads this
    {
      && |name| == |animeId| && |genre| == |animeId| && |kind| == |animeId|
      && |rating| == |animeId| && |members| == |animeId|
      && (genreList.Some? ==> |genreList.value| == |animeId|)
    }

    ghost predicate IsClean()
      reads this
    {
      && Valid() && NoneMissing(genre) && NoneMissing(kind) && NoneMissing(rating)
      && genreList == Some(SplitGenres(genre))
    }

    /** `pd.read_csv("anime.csv")`: the columns as read, without `genre_list`. */
    constructor (animeId: seq<int>, name: seq<string>, genre: seq<Option<string>>,
                 kind: seq<Option<string>>, rating: seq<Option<real>>, members: seq<int>)
      requires |name| == |animeId| && |genre| == |animeId| && |kind| == |animeId|
      requires |rating| == |animeId| && |members| == |animeId|
      ensures Valid() && genreList == None
      ensures this.animeId == animeId && this.name == name && this.genre == genre
      ensures this.kind == kind && this.rating == rating && this.members == members
    {
      this.animeId, this.name, this.genre := animeId, name, genre;
      this.kind, this.rating, this.members := kind, rating, members;
      genreList := None;
    }

    /** Three `fillna` overwrites, then the new `genre_list` column split from the filled genres. */
    method Clean()
      requires Valid()
      modifies this
      ensures IsClean()
      ensures rating == FillNa(old(rating), 0.0)
      ensures genre == FillNa(old(genre), Unknown)
      ensures kind == FillNa(old(kind), Unknown)
      ensures genreList == Some(SplitGenres(genre))
      ensures animeId == old(animeId) && name == old(name) && members == old(members)
    {
      rating := FillNa(rating, 0.0);
      genre := FillNa(genre, Unknown);
      kind := FillNa(kind, Unknown);
      genreList := Some(SplitGenres(genre));
    }

    /**
     * The cleaned table row by row, as the KPI functions read it: row i holds
     * the cells of row i, and its genre list is its genre text split at ", ",
     * never empty.
     */
    function Rows(): (t: seq<Anime>)
      reads this
      requires IsClean()
      ensures |t| == |animeId|
      ensures forall i :: 0 <= i < |t| ==>
        && t[i].animeId == animeId[i] && t[i].name == name[i] && t[i].members == members[i]
        && genre[i] == Some(t[i].genre) && kind[i] == Some(t[i].kind) && rating[i] == Some(t[i].rating)
      ensures forall i :: 0 <= i < |t| ==>
        t[i].genreList == Text.Split(t[i].genre, GenreSeparator) && |t[i].genreList| >= 1
    {
      var ids, names, genres, kinds, ratings, memberCounts, lists :=
        animeId, name, genre, kind, rating, members, genreList.value;
      seq(|ids|, i requires 0 <= i < |ids| =>
        Anime(ids[i], names[i], genres[i].value, kinds[i].value, ratings[i].value, memberCounts[i], lists[i]))
    }
  }

  /**
   * After the cleaning, a missing genre has the one-element list ["unknown"],
   * and every genre list joins back to its genre text.
   */
  lemma CleanedGenreList(genre: seq<Option<string>>, i: nat)
    requires i < |genre|
    ensures var filled := FillNa(genre, Unknown);
      && (genre[i].None? ==> SplitGenres(filled)[i] == [Unknown])
      && |SplitGenres(filled)[i]| >= 1
      && Text.Join(SplitGenres(filled)[i], GenreSeparator) == filled[i].value
  {
    var filled := FillNa(genre, Unknown);
    Text.JoinSplit(filled[i].value, GenreSeparator);
    if genre[i].None? {
      assert filled[i].value == Unknown;
      Text.SplitWithoutSeparatorChar(Unknown, GenreSeparator);
    }
  }

  // ---------------------------------------------------------------------------
  // Explode: one row per genre of each anime
  // ---------------------------------------------------------------------------

  /** One row of `genres_expanded`: an anime paired with one element of its genre list. */
  datatype GenreRow = GenreRow(anime: Anime, genre: string)

  function TotalGenres(t: seq<Anime>): nat
  {
    if t == [] then 0 else |t[0].genreList| + TotalGenres(t[1..])
  }

  function ExplodeOne(a: Anime): (rows: seq<GenreRow>)
    ensures |rows| == |a.genreList|
    ensures forall k :: 0 <= k < |rows| ==> rows[k] == GenreRow(a, a.genreList[k])
  {
    seq(|a.genreList|, k requires 0 <= k < |a.genreList| => GenreRow(a, a.genreList[k]))
  }

  /**
   * `df.explode('genre_list')`: each anime becomes one row per element of its
   * list, in order; every row is an anime of the table with one of its genres.
   */
  function Explode(t: seq<Anime>): (e: seq<GenreRow>)
    ensures forall k :: 0 <= k < |e| ==> e[k].anime in t && e[k].genre in e[k].anime.genreList
  {
    if t == [] then []
    else
      var first, rest := ExplodeOne(t[0]), Explode(t[1..]);
      assert forall a :: a in t[1..] ==> a in t;
      assert forall k :: 0 <= k < |first| ==> first[k].genre == t[0].genreList[k];
      first + rest
  }

  /** The exploded table has one row per element of every list. */
  lemma {:induction false} ExplodeLength(t: seq<Anime>)
    ensures |Explode(t)| == TotalGenres(t)
  {
    if t != [] {
      ExplodeLength(t[1..]);
    }
  }

  /** A row of the exploded table is exactly an anime of the table with one of its genres. */
  lemma {:induction false} ExplodeMembers(t: seq<Anime>)
    ensures forall a, g :: GenreRow(a, g) in Explode(t) <==> a in t && g in a.genreList
  {
    if t != [] {
      ExplodeMembers(t[1..]);
      assert t == [t[0]] + t[1..];
      forall a, g ensures GenreRow(a, g) in ExplodeOne(t[0]) <==> a == t[0] && g in a.genreList {
        if a == t[0] && g in a.genreList {
          var k :| 0 <= k < |a.genreList| && a.genreList[k] == g;
          assert ExplodeOne(t[0])[k] == GenreRow(a, g);
        }
      }
    }
  }

  /**
   * The script's top level: read the columns, clean them in place, take the
   * cleaned rows, and explode them into `genres_expanded`. Each row holds its
   * filled cells, and the expansion has one row per genre of every list.
   */
  method LoadAndExplode(animeId: seq<int>, name: seq<string>, genre: seq<Option<string>>,
                        kind: seq<Option<string>>, rating: seq<Option<real>>, members: seq<int>)
    returns (t: seq<Anime>, genresExpanded: seq<GenreRow>)
    requires |name| == |animeId| && |genre| == |animeId| && |kind| == |animeId|
    requires |rating| == |animeId| && |members| == |animeId|
    ensures |t| == |animeId|
    ensures forall i :: 0 <= i < |t| ==>
      && t[i].animeId == animeId[i] && t[i].name == name[i] && t[i].members == members[i]
      && t[i].genre == genre[i].GetOr(Unknown) && t[i].kind == kind[i].GetOr(Unknown)
      && t[i].rating == rating[i].GetOr(0.0)
      && t[i].genreList == Text.Split(t[i].genre, GenreSeparator)
    ensures genresExpanded == Explode(t) && |genresExpanded| == TotalGenres(t)
  {
    var df := new AnimeFrame(animeId, name, genre, kind, rating, members);
    df.Clean();
    t := df.Rows();
    forall i | 0 <= i < |t|
      ensures t[i].genre == genre[i].GetOr(Unknown) && t[i].kind == kind[i].GetOr(Unknown)
      ensures t[i].rating == rating[i].GetOr(0.0)
    {
      assert df.genre[i] == Some(t[i].genre) && df.kind[i] == Some(t[i].kind);
      assert df.rating[i] == Some(t[i].rating);
    }
    genresExpanded := Explode(t);
    ExplodeLength(t);
  }

  // ---------------------------------------------------------------------------
  // Group-by tables: count and members sum per key
  // ---------------------------------------------------------------------------

  /** A row reduced to what a group-by reads: its group key and its `members`. */
  datatype Keyed = Keyed(key: string, members: int)

  /** One row of a grouped table: the key, the row `count` and the `members` sum. */
  datatype GroupStat = GroupStat(key: string, count: nat, members: int)

  function KeyCount(rows: seq<Keyed>, key: string): nat
  {
    if rows == [] then 0 else (if rows[0].key == key then 1 else 0) + KeyCount(rows[1..], key)
  }

  function KeyMembers(rows: seq<Keyed>, key: string): int
  {
    if rows == [] then 0 else (if rows[0].key == key then rows[0].members else 0) + KeyMembers(rows[1..], key)
  }

  ghost predicate HasKey(rows: seq<Keyed>, key: string)
  {
    exists j :: 0 <= j < |rows| && rows[j].key == key
  }

  ghost predicate DistinctKeys(keys: seq<string>)
  {
    forall i, j :: 0 <= i < j < |keys| ==> keys[i] != keys[j]
  }

  /** The keys of the rows, each once, in order of first appearance. */
  function Keys(rows: seq<Keyed>): (keys: seq<string>)
    ensures DistinctKeys(keys)
    ensures forall k :: k in keys <==> HasKey(rows, k)
  {
    if rows == [] then []
    else
      var front := rows[..|rows| - 1];
      var last := rows[|rows| - 1].key;
      var keys := Keys(front);
      assert forall k :: HasKey(rows, k) <==> HasKey(front, k) || k == last by {
        forall k ensures HasKey(rows, k) <==> HasKey(front, k) || k == last {
          if HasKey(front, k) {
            var j :| 0 <= j < |front| && front[j].key == k;
            assert rows[j].key == k;
          }
        }
      }
      if last in keys then keys else keys + [last]
  }

  /**
   * `groupby(key).agg(count, members sum)`: exactly one row per key that
   * occurs, none for a key that does not, each with its key's row count (at
   * least one) and `members` sum.
   */
  function GroupByKey(rows: seq<Keyed>): (table: seq<GroupStat>)
    ensures forall i, j :: 0 <= i < j < |table| ==> table[i].key != table[j].key
    ensures forall k :: HasKey(rows, k) <==> exists i :: 0 <= i < |table| && table[i].key == k
    ensures forall i :: 0 <= i < |table| ==>
      table[i].count == KeyCount(rows, table[i].key) && table[i].members == KeyMembers(rows, table[i].key)
    ensures forall i :: 0 <= i < |table| ==> table[i].count >= 1
  {
    var keys := Keys(rows);
    var table := seq(|keys|, i requires 0 <= i < |keys| =>
      GroupStat(keys[i], KeyCount(rows, keys[i]), KeyMembers(rows, keys[i])));
    assert forall i :: 0 <= i < |table| ==> table[i].key == keys[i];
    forall k | HasKey(rows, k) ensures exists i :: 0 <= i < |table| && table[i].key == k {
      var i :| 0 <= i < |keys| && keys[i] == k;
      assert table[i].key == k;
    }
    forall i | 0 <= i < |table| ensures table[i].count >= 1 {
      assert keys[i] in keys;
      KeyCountPositive(rows, keys[i]);
    }
    table
  }

  /** A key that occurs is counted at least once. */
  lemma {:induction false} KeyCountPositive(rows: seq<Keyed>, key: string)
    requires HasKey(rows, key)
    ensures KeyCount(rows, key) >= 1
  {
    if rows[0].key != key {
      var j :| 0 <= j < |rows| && rows[j].key == key;
      assert rows[1..][j - 1].key == key;
      KeyCountPositive(rows[1..], key);
    }
  }

  // ---------------------------------------------------------------------------
  // Descending sort (sort_values(ascending=False), nlargest) and head
  // ---------------------------------------------------------------------------

  ghost predicate SortedDesc<T>(s: seq<T>, key: T -> real)
  {
    forall i, j :: 0 <= i < j < |s| ==> key(s[j]) <= key(s[i])
  }

  function InsertDesc<T>(x: T, s: seq<T>, key: T -> real): (r: seq<T>)
    ensures multiset(r) == multiset(s) + multiset{x}
    ensures |r| == |s| + 1
    ensures r[0] == x || (s != [] && r[0] == s[0])
  {
    if s == [] then [x]
    else if key(s[0]) <= key(x) then [x] + s
    else
      assert s == [s[0]] + s[1..];
      [s[0]] + InsertDesc(x, s[1..], key)
  }

  lemma {:induction false} InsertDescSorted<T>(x: T, s: seq<T>, key: T -> real)
    requires SortedDesc(s, key)
    ensures SortedDesc(InsertDesc(x, s, key), key)
  {
    if s != [] && key(x) < key(s[0]) {
      var rest := InsertDesc(x, s[1..], key);
      InsertDescSorted(x, s[1..], key);
      assert key(rest[0]) <= key(s[0]);
      var r := [s[0]] + rest;
      forall i, j | 0 <= i < j < |r| ensures key(r[j]) <= key(r[i]) {
        if i == 0 {
          assert r[j] == rest[j - 1];
          assert key(rest[j - 1]) <= key(rest[0]);
        } else {
          assert r[i] == rest[i - 1] && r[j] == rest[j - 1];
        }
      }
    }
  }

  /** A stable descending sort by `key`: a permutation of the input, largest key first. */
  function SortDesc<T>(s: seq<T>, key: T -> real): (r: seq<T>)
    ensures SortedDesc(r, key)
    ensures multiset(r) == multiset(s)
    ensures |r| == |s|
  {
    if s == [] then []
    else
      assert s == [s[0]] + s[1..];
      var rest := SortDesc(s[1..], key);
      InsertDescSorted(s[0], rest, key);
      InsertDesc(s[0], rest, key)
  }

  /** `DataFrame.head(n)`: the first n rows, or all but the last -n rows when n is negative. */
  function Head<T>(s: seq<T>, n: int): (r: seq<T>)
    ensures n >= 0 ==> |r| == if n < |s| then n else |s|
    ensures n < 0 ==> |r| == if |s| + n > 0 then |s| + n else 0
    ensures r == s[..|r|]
  {
    if n >= 0 then (if n < |s| then s[..n] else s)
    else (if |s| + n > 0 then s[..|s| + n] else [])
  }

  // ---------------------------------------------------------------------------
  // KPI 2: genres by popularity
  // ---------------------------------------------------------------------------

  function GenreKeyed(e: seq<GenreRow>): (rows: seq<Keyed>)
    ensures |rows| == |e|
    ensures forall i :: 0 <= i < |e| ==> rows[i] == Keyed(e[i].genre, e[i].anime.members)
  {
    seq(|e|, i requires 0 <= i < |e| => Keyed(e[i].genre, e[i].anime.members))
  }

  function MembersKey(s: GroupStat): real
  {
    s.members as real
  }

  /** `genre_stats`: one row per genre of the exploded table, by `members` descending. */
  function GenreStats(t: seq<Anime>): (stats: seq<GroupStat>)
    ensures SortedDesc(stats, MembersKey)
    ensures multiset(stats) == multiset(GroupByKey(GenreKeyed(Explode(t))))
  {
    SortDesc(GroupByKey(GenreKeyed(Explode(t))), MembersKey)
  }

  /** `top_genres = genre_stats.head(top_n)`. */
  function TopGenres(t: seq<Anime>, topN: int): (top: seq<GroupStat>)
    ensures topN >= 0 ==> |top| == if topN < |GenreStats(t)| then topN else |GenreStats(t)|
    ensures |top| <= |GenreStats(t)| && top == GenreStats(t)[..|top|]
  {
    Head(GenreStats(t), topN)
  }

  /** Every row of a grouped table is one key's count and sum; every key appears. */
  lemma GroupedRows(rows: seq<Keyed>, sorted: seq<GroupStat>)
    requires multiset(sorted) == multiset(GroupByKey(rows))
    ensures forall s :: s in sorted ==> s.count == KeyCount(rows, s.key) && s.members == KeyMembers(rows, s.key)
    ensures forall k :: HasKey(rows, k) <==> exists s :: s in sorted && s.key == k
    ensures forall i, j :: 0 <= i < j < |sorted| ==> sorted[i].key != sorted[j].key
  {
    var table := GroupByKey(rows);
    forall s | s in sorted ensures s in table {
      assert s in multiset(sorted);
    }
    forall k | HasKey(rows, k) ensures exists s :: s in sorted && s.key == k {
      var i :| 0 <= i < |table| && table[i].key == k;
      assert table[i] in multiset(table);
      assert table[i] in sorted;
    }
    forall k | exists s :: s in sorted && s.key == k ensures HasKey(rows, k) {
      var s :| s in sorted && s.key == k;
      var i :| 0 <= i < |table| && table[i] == s;
    }
    forall i, j | 0 <= i < j < |sorted| ensures sorted[i].key != sorted[j].key {
      if sorted[i].key == sorted[j].key {
        assert sorted[i] in sorted && sorted[j] in sorted;
        assert sorted[i] in table && sorted[j] in table;
        assert sorted[i] == sorted[j];
        TwiceInMultiset(sorted, i, j);
        var x := sorted[i];
        var k :| 0 <= k < |table| && table[k] == x;
        OnceInMultiset(table, k);
      }
    }
  }

  lemma TwiceInMultiset<T>(s: seq<T>, i: nat, j: nat)
    requires i < j < |s| && s[i] == s[j]
    ensures multiset(s)[s[i]] >= 2
  {
    assert s == s[..i] + [s[i]] + s[i + 1..j] + [s[j]] + s[j + 1..];
  }

  /** In a table built from distinct keys, a row occurs once. */
  lemma OnceInMultiset(table: seq<GroupStat>, k: nat)
    requires k < |table|
    requires forall i, j :: 0 <= i < j < |table| ==> table[i].key != table[j].key
    ensures multiset(table)[table[k]] == 1
  {
    var x, front, back := table[k], table[..k], table[k + 1..];
    assert table == front + [x] + back;
    forall i | 0 <= i < |front| ensures front[i] != x {
      assert front[i].key == table[i].key != x.key;
    }
    forall j | 0 <= j < |back| ensures back[j] != x {
      assert back[j].key == table[k + 1 + j].key != x.key;
    }
  }

  /**
   * The genre table: ordered by `members` descending, exactly one row per
   * genre that occurs, with that genre's row count and `members` sum.
   */
  lemma {:induction false} GenreStatsCorrect(t: seq<Anime>)
    ensures var stats, e := GenreStats(t), GenreKeyed(Explode(t));
      && SortedDesc(stats, MembersKey)
      && (forall s :: s in stats ==> s.count == KeyCount(e, s.key) && s.members == KeyMembers(e, s.key))
      && (forall g :: HasKey(e, g) <==> exists s :: s in stats && s.key == g)
      && (forall i, j :: 0 <= i < j < |stats| ==> stats[i].key != stats[j].key)
  {
    var e := GenreKeyed(Explode(t));
    GroupedRows(e, GenreStats(t));
  }

  // ---------------------------------------------------------------------------
  // KPI 1 and KPI 3: rated rows, and types by count
  // ---------------------------------------------------------------------------

  /** `df[df['rating'] > 0]`. */
  function Rated(t: seq<Anime>): (r: seq<Anime>)
    ensures |r| <= |t|
    ensures forall a :: a in r <==> a in t && a.rating > 0.0
    ensures forall a :: multiset(r)[a] == if a.rating > 0.0 then multiset(t)[a] else 0
  {
    if t == [] then []
    else
      assert forall a :: a in t <==> a == t[0] || a in t[1..];
      assert t == [t[0]] + t[1..];
      (if t[0].rating > 0.0 then [t[0]] else []) + Rated(t[1..])
  }

  /** `total_animes` and `animes_con_rating`. */
  function RatingCounts(t: seq<Anime>): (counts: (nat, nat))
    ensures counts.0 == |t| && counts.1 <= counts.0
    ensures counts.1 == counts.0 <==> forall a :: a in t ==> a.rating > 0.0
  {
    var rated := Rated(t);
    RatedAll(t);
    (|t|, |rated|)
  }

  lemma {:induction false} RatedAll(t: seq<Anime>)
    ensures |Rated(t)| == |t| <==> forall a :: a in t ==> a.rating > 0.0
  {
    if t != [] {
      RatedAll(t[1..]);
      RatedCons(t);
      AllRatedCons(t);
    }
  }

  lemma RatedCons(t: seq<Anime>)
    requires t != []
    ensures |Rated(t)| == (if t[0].rating > 0.0 then 1 else 0) + |Rated(t[1..])|
  {
  }

  lemma AllRatedCons(t: seq<Anime>)
    requires t != []
    ensures (forall a :: a in t ==> a.rating > 0.0) <==>
      t[0].rating > 0.0 && forall a :: a in t[1..] ==> a.rating > 0.0
  {
    assert t == [t[0]] + t[1..];
  }

  function TypeKeyed(t: seq<Anime>): (rows: seq<Keyed>)
    ensures |rows| == |t|
    ensures forall i :: 0 <= i < |t| ==> rows[i] == Keyed(t[i].kind, t[i].members)
  {
    seq(|t|, i requires 0 <= i < |t| => Keyed(t[i].kind, t[i].members))
  }

  function CountKey(s: GroupStat): real
  {
    s.count as real
  }

  /** `type_stats`: the rated rows grouped by type, by count descending. */
  function TypeStats(t: seq<Anime>): (stats: seq<GroupStat>)
    ensures SortedDesc(stats, CountKey)
    ensures multiset(stats) == multiset(GroupByKey(TypeKeyed(Rated(t))))
  {
    SortDesc(GroupByKey(TypeKeyed(Rated(t))), CountKey)
  }

  /**
   * The type table: ordered by count descending, one row per type among the
   * rated rows, each with that type's number of rated rows; rows without
   * a rating are not counted.
   */
  lemma {:induction false} TypeStatsCorrect(t: seq<Anime>)
    ensures var stats, rated := TypeStats(t), TypeKeyed(Rated(t));
      && SortedDesc(stats, CountKey)
      && (forall s :: s in stats ==> s.count == KeyCount(rated, s.key) && s.members == KeyMembers(rated, s.key))
      && (forall k :: HasKey(rated, k) <==> exists s :: s in stats && s.key == k)
      && (forall i, j :: 0 <= i < j < |stats| ==> stats[i].key != stats[j].key)
  {
    var rated := TypeKeyed(Rated(t));
    GroupedRows(rated, TypeStats(t));
  }

  /** The counts of a grouped table add up to the number of rows grouped: each row is counted once. */
  lemma {:induction false} GroupCountsCoverRows(rows: seq<Keyed>)
    ensures SumKeyCounts(rows, Keys(rows)) == |rows|
  {
    var keys := Keys(rows);
    forall r | r in rows ensures r.key in keys {
      var j :| 0 <= j < |rows| && rows[j] == r;
      assert HasKey(rows, r.key);
    }
    CountsCover(rows, keys);
  }

  lemma {:induction false} CountsCover(rows: seq<Keyed>, keys: seq<string>)
    requires DistinctKeys(keys)
    requires forall r :: r in rows ==> r.key in keys
    ensures SumKeyCounts(rows, keys) == |rows|
  {
    if rows != [] {
      assert forall r :: r in rows[1..] ==> r in rows;
      CountsCover(rows[1..], keys);
      SumKeyCountsCons(rows, keys);
      assert rows[0] in rows;
      OccurrencesOfKey(keys, rows[0].key);
    } else {
      NothingToCount(keys);
    }
  }

  lemma {:induction false} NothingToCount(keys: seq<string>)
    ensures SumKeyCounts([], keys) == 0
  {
    if keys != [] {
      NothingToCount(keys[1..]);
    }
  }

  function SumKeyCounts(rows: seq<Keyed>, keys: seq<string>): nat
  {
    if keys == [] then 0 else KeyCount(rows, keys[0]) + SumKeyCounts(rows, keys[1..])
  }

  function KeyOccurrences(keys: seq<string>, k: string): nat
  {
    if keys == [] then 0 else (if keys[0] == k then 1 else 0) + KeyOccurrences(keys[1..], k)
  }

  lemma {:induction false} SumKeyCountsCons(rows: seq<Keyed>, keys: seq<string>)
    requires rows != []
    ensures SumKeyCounts(rows, keys) == KeyOccurrences(keys, rows[0].key) + SumKeyCounts(rows[1..], keys)
  {
    if keys != [] {
      SumKeyCountsCons(rows, keys[1..]);
    }
  }

  lemma {:induction false} OccurrencesOfKey(keys: seq<string>, k: string)
    requires DistinctKeys(keys) && k in keys
    ensures KeyOccurrences(keys, k) == 1
  {
    assert DistinctKeys(keys[1..]) by {
      forall i, j | 0 <= i < j < |keys[1..]| ensures keys[1..][i] != keys[1..][j] {
        assert keys[1..][i] == keys[i + 1] && keys[1..][j] == keys[j + 1];
      }
    }
    if keys[0] == k {
      forall j | 0 <= j < |keys[1..]| ensures keys[1..][j] != k {
        assert keys[1..][j] == keys[j + 1];
      }
      OccurrencesNone(keys[1..], k);
    } else {
      assert keys == [keys[0]] + keys[1..];
      OccurrencesOfKey(keys[1..], k);
    }
  }

  lemma {:induction false} OccurrencesNone(keys: seq<string>, k: string)
    requires k !in keys
    ensures KeyOccurrences(keys, k) == 0
  {
    if keys != [] {
      assert keys[0] in keys;
      assert forall x :: x in keys[1..] ==> x in keys;
      OccurrencesNone(keys[1..], k);
    }
  }

  // ---------------------------------------------------------------------------
  // KPI 4: top animes (nlargest) and the display name
  // ---------------------------------------------------------------------------

  /** The four columns `kpi_top_animes` keeps. */
  datatype TopRow = TopRow(name: string, rating: real, members: int, kind: string)

  function RatingKey(a: Anime): real
  {
    a.rating
  }

  function PopularityKey(a: Anime): real
  {
    a.members as real
  }

  /** The column `criterio` ranks by: `rating` for 'rating', `members` for anything else. */
  function RankKey(criterion: string): Anime -> real
  {
    if criterion == "rating" then RatingKey else PopularityKey
  }

  function ToTopRow(a: Anime): TopRow
  {
    TopRow(a.name, a.rating, a.members, a.kind)
  }

  /** `df.nlargest(n, column)`: the n largest rows by the column, ties in table order. */
  function Largest(t: seq<Anime>, criterion: string, topN: int): (best: seq<Anime>)
    ensures |best| == if topN <= 0 then 0 else if topN < |t| then topN else |t|
  {
    if topN <= 0 then [] else Head(SortDesc(t, RankKey(criterion)), topN)
  }

  /** The four kept columns of each row, in order. */
  function TopRows(t: seq<Anime>): (rows: seq<TopRow>)
    ensures |rows| == |t|
    ensures forall i :: 0 <= i < |t| ==> rows[i] == ToTopRow(t[i])
  {
    if t == [] then [] else [ToTopRow(t[0])] + TopRows(t[1..])
  }

  /** Projecting a permutation of the rows gives a permutation of the projected rows. */
  lemma {:induction false} TopRowsPermutation(a: seq<Anime>, b: seq<Anime>)
    requires multiset(a) == multiset(b)
    ensures multiset(TopRows(a)) == multiset(TopRows(b))
    decreases |a|
  {
    if a != [] {
      assert a[0] in multiset(b);
      var j :| 0 <= j < |b| && b[j] == a[0];
      var rest := b[..j] + b[j + 1..];
      WithoutOne(a, b, j);
      TopRowsPermutation(a[1..], rest);
      TopRowsSplice(b, j);
      assert TopRows(a) == [ToTopRow(a[0])] + TopRows(a[1..]);
    }
  }

  /** Taking the same row out of two permutations leaves two permutations. */
  lemma WithoutOne(a: seq<Anime>, b: seq<Anime>, j: nat)
    requires a != [] && j < |b| && b[j] == a[0] && multiset(a) == multiset(b)
    ensures multiset(a[1..]) == multiset(b[..j] + b[j + 1..])
  {
    assert a == [a[0]] + a[1..];
    assert b == b[..j] + [b[j]] + b[j + 1..];
    assert multiset(a[1..]) == multiset(a) - multiset{a[0]};
  }

  /** The projection of a table is the projection of one row plus that of the others. */
  lemma TopRowsSplice(b: seq<Anime>, j: nat)
    requires j < |b|
    ensures multiset(TopRows(b)) == multiset(TopRows(b[..j] + b[j + 1..])) + multiset{ToTopRow(b[j])}
  {
    var front, back := b[..j], b[j + 1..];
    var x := ToTopRow(b[j]);
    var pf, pb := TopRows(front), TopRows(back);
    assert TopRows(b) == pf + ([x] + pb) by {
      SplitAround(b, j);
      TopRowsAppend(front, [b[j]] + back);
      TopRowsAppend([b[j]], back);
      assert TopRows([b[j]]) == [x];
    }
    assert TopRows(front + back) == pf + pb by {
      TopRowsAppend(front, back);
    }
    SpliceMultiset(pf, x, pb);
  }

  lemma SplitAround(b: seq<Anime>, j: nat)
    requires j < |b|
    ensures b == b[..j] + ([b[j]] + b[j + 1..])
  {
  }

  lemma SpliceMultiset(p: seq<TopRow>, x: TopRow, q: seq<TopRow>)
    ensures multiset(p + ([x] + q)) == multiset(p + q) + multiset{x}
  {
  }

  lemma {:induction false} TopRowsAppend(x: seq<Anime>, y: seq<Anime>)
    ensures TopRows(x + y) == TopRows(x) + TopRows(y)
    decreases |x|
  {
    if x == [] {
      assert x + y == y;
    } else {
      assert (x + y)[1..] == x[1..] + y;
      TopRowsAppend(x[1..], y);
    }
  }

  /**
   * `kpi_top_animes`: at most `topN` rows, the four kept columns of distinct
   * rows of the table (no row of the table is shown more often than it occurs),
   * in descending order of the ranked column (`rating` for 'rating', `members` otherwise).
   */
  function TopAnimes(t: seq<Anime>, criterion: string, topN: int): (top: seq<TopRow>)
    ensures |top| == if topN <= 0 then 0 else if topN < |t| then topN else |t|
    ensures forall i :: 0 <= i < |top| ==> top[i] in TopRows(t)
    ensures multiset(top) <= multiset(TopRows(t))
    ensures forall i, j :: 0 <= i < j < |top| ==>
      if criterion == "rating" then top[j].rating <= top[i].rating else top[j].members <= top[i].members
  {
    var best := Largest(t, criterion, topN);
    LargestAreLargest(t, criterion, topN);
    TopRowsOrdered(best, criterion);
    LargestProjection(t, criterion, topN);
    TopRowsFrom(TopRows(best), TopRows(t));
    TopRows(best)
  }

  lemma TopRowsFrom(top: seq<TopRow>, rows: seq<TopRow>)
    requires multiset(top) <= multiset(rows)
    ensures forall i :: 0 <= i < |top| ==> top[i] in rows
  {
    forall i | 0 <= i < |top| ensures top[i] in rows {
      assert top[i] in multiset(top);
    }
  }

  lemma TopRowsOrdered(best: seq<Anime>, criterion: string)
    requires SortedDesc(best, RankKey(criterion))
    ensures var top := TopRows(best);
      forall i, j :: 0 <= i < j < |top| ==>
        if criterion == "rating" then top[j].rating <= top[i].rating else top[j].members <= top[i].members
  {
    var top := TopRows(best);
    forall i, j | 0 <= i < j < |top|
      ensures if criterion == "rating" then top[j].rating <= top[i].rating else top[j].members <= top[i].members
    {
      assert RankKey(criterion)(best[j]) <= RankKey(criterion)(best[i]);
    }
  }

  /** The projected ranking is a prefix of the projected sorted table, a permutation of the projected table. */
  lemma LargestProjection(t: seq<Anime>, criterion: string, topN: int)
    ensures multiset(TopRows(Largest(t, criterion, topN))) <= multiset(TopRows(t))
  {
    var sorted := SortDesc(t, RankKey(criterion));
    var best := Largest(t, criterion, topN);
    if topN > 0 {
      var rest := sorted[|best|..];
      assert sorted == best + rest;
      TopRowsAppend(best, rest);
      TopRowsPermutation(sorted, t);
    }
  }

  /**
   * The ranked rows come from the table in descending order of the chosen
   * column, and any anime left out ranks no higher than every one shown.
   */
  lemma {:induction false} LargestAreLargest(t: seq<Anime>, criterion: string, topN: int)
    ensures var key, best := RankKey(criterion), Largest(t, criterion, topN);
      && (forall i :: 0 <= i < |best| ==> best[i] in t)
      && SortedDesc(best, key)
      && (forall a, i :: a in t && a !in best && 0 <= i < |best| ==> key(a) <= key(best[i]))
      && multiset(best) <= multiset(t)
  {
    var key := RankKey(criterion);
    var sorted := SortDesc(t, key);
    var best := Largest(t, criterion, topN);
    if topN > 0 {
      assert best == sorted[..|best|];
      PrefixMultiset(t, sorted, |best|);
      PrefixMembers(t, sorted, |best|);
      PrefixDominates(t, sorted, |best|, key);
    }
  }

  /** A prefix of a permutation of t is a sub-multiset of t. */
  lemma PrefixMultiset<T>(t: seq<T>, sorted: seq<T>, n: nat)
    requires multiset(sorted) == multiset(t) && n <= |sorted|
    ensures multiset(sorted[..n]) <= multiset(t)
  {
    assert sorted == sorted[..n] + sorted[n..];
    assert multiset(sorted) == multiset(sorted[..n]) + multiset(sorted[n..]);
  }

  /** Every row of a prefix of a permutation of t is a row of t. */
  lemma PrefixMembers<T>(t: seq<T>, sorted: seq<T>, n: nat)
    requires multiset(sorted) == multiset(t) && n <= |sorted|
    ensures forall i :: 0 <= i < n ==> sorted[..n][i] in t
  {
    forall i | 0 <= i < n ensures sorted[..n][i] in t {
      assert sorted[i] in multiset(sorted);
    }
  }

  /** A row of t outside a prefix of t sorted descending ranks no higher than any row of the prefix. */
  lemma PrefixDominates<T>(t: seq<T>, sorted: seq<T>, n: nat, key: T -> real)
    requires multiset(sorted) == multiset(t) && SortedDesc(sorted, key) && n <= |sorted|
    ensures forall a, i :: a in t && a !in sorted[..n] && 0 <= i < n ==> key(a) <= key(sorted[..n][i])
  {
    var best := sorted[..n];
    forall a, i | a in t && a !in best && 0 <= i < n ensures key(a) <= key(best[i]) {
      assert a in multiset(sorted) by {
        assert a in multiset(t);
      }
      var j :| 0 <= j < |sorted| && sorted[j] == a;
      assert j >= n by {
        forall m | 0 <= m < n ensures sorted[m] != a {
          assert sorted[m] == best[m] && best[m] in best;
        }
      }
      assert best[i] == sorted[i];
    }
  }

  const NameWidth: nat := 40
  const Ellipsis := "..."

  /**
   * `nombre_corto`: a name over 40 characters is shown as its first 37 and
   * "...", exactly 40; a name of 40 or fewer is shown unchanged.
   */
  function ShortName(name: string): (shown: string)
    ensures |shown| == if |name| > NameWidth then NameWidth else |name|
    ensures |name| <= NameWidth ==> shown == name
    ensures |name| > NameWidth ==> shown[..37] == name[..37] && shown[37..] == "..."
  {
    if |name| > NameWidth then name[..NameWidth - |Ellipsis|] + Ellipsis else name
  }
}
