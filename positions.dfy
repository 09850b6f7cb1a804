/**
 * Per-cell tables and `load_pos`: read one table per positions file, take each file's rank
 * from its name, then sort the ranks and (separately) the tables by rank.
 */
module Positions {
  import opened Wrappers
  import opened RankName
  import opened Sorting

  /** The columns of a per-cell table that the field reconstruction reads. */
  datatype Column = V0 | V1 | S0 | S1 | S0Full | S1Full

  /** One cell's table: a column of values per attribute, one row per stored timestep. */
  datatype CellTable = CellTable(
    time: seq<real>,
    rank: seq<int>,
    v0: seq<real>,
    v1: seq<real>,
    s0: seq<real>,
    s1: seq<real>,
    s0full: seq<real>,
    s1full: seq<real>)

  /** `table[column]` */
  function ColumnOf(table: CellTable, column: Column): seq<real>
  {
    match column
    case V0 => table.v0
    case V1 => table.v1
    case S0 => table.s0
    case S1 => table.s1
    case S0Full => table.s0full
    case S1Full => table.s1full
  }

  /** `table.iloc[0]['rank']`, the sort key of a table (only used on non-empty tables). */
  function FirstRank(table: CellTable): int
  {
    if table.rank == [] then 0 else table.rank[0]
  }

  /** A positions file as the directory listing yields it: its name and its parsed table. */
  datatype PositionFile = PositionFile(name: string, table: CellTable)

  datatype LoadError =
    | NoRankInFileName(name: string)  // IndexError of `re.findall(...)[-1]`
    | EmptyTable                      // IndexError of `elem.iloc[0]` in the sort key
    | GatherFault                     // IndexError/ValueError of `v0[:, rank] = positions[rank][...]`

  /** What `load_pos` returns: the tables and the rank array, both in ascending rank order. */
  datatype Loaded = Loaded(positions: seq<CellTable>, ranks: seq<int>)

  predicate AllNamesHaveRank(files: seq<PositionFile>)
  {
    forall k :: 0 <= k < |files| ==> RankFromFileName(files[k].name).Some?
  }

  predicate HasEmptyTable(files: seq<PositionFile>)
  {
    exists k :: 0 <= k < |files| && files[k].table.rank == []
  }

  predicate LoadsWithoutError(files: seq<PositionFile>)
  {
    AllNamesHaveRank(files) && !HasEmptyTable(files)
  }

  /** Each file's table starts with the rank its name carries. */
  predicate NamesMatchTables(files: seq<PositionFile>)
    requires AllNamesHaveRank(files)
  {
    forall k :: 0 <= k < |files| ==> FirstRank(files[k].table) == RankFromFileName(files[k].name).value
  }

  function Tables(files: seq<PositionFile>): (ts: seq<CellTable>)
    ensures |ts| == |files| && forall k :: 0 <= k < |files| ==> ts[k] == files[k].table
  {
    seq(|files|, k requires 0 <= k < |files| => files[k].table)
  }

  /** The ranks in directory-listing order, before sorting. */
  function ParsedRanks(files: seq<PositionFile>): (rs: seq<int>)
    requires AllNamesHaveRank(files)
    ensures |rs| == |files|
    ensures forall k :: 0 <= k < |files| ==> rs[k] == RankFromFileName(files[k].name).value
  {
    seq(|files|, k requires 0 <= k < |files| && RankFromFileName(files[k].name).Some? =>
      RankFromFileName(files[k].name).value)
  }

  function SortedPositions(files: seq<PositionFile>): seq<CellTable>
  {
    SortBy(Tables(files), FirstRank)
  }

  function SortedRanks(files: seq<PositionFile>): (rs: seq<int>)
    requires AllNamesHaveRank(files)
    ensures |rs| == |files|
  {
    Gather(ParsedRanks(files), ArgSort(ParsedRanks(files)))
  }

  /**
   * After sorting, the i-th table is the one of the i-th rank, provided every file's table
   * starts with the rank in its name: the two independent sorts line up.
   */
  lemma SortedTablesMatchRanks(files: seq<PositionFile>)
    requires AllNamesHaveRank(files) && NamesMatchTables(files)
    ensures Keys(SortedPositions(files), FirstRank) == SortedRanks(files)
  {
    assert Keys(Tables(files), FirstRank) == ParsedRanks(files);
    SortByAgreesWithArgSort(Tables(files), FirstRank, ParsedRanks(files));
  }

  /**
   * What the two sorts of `load_pos` promise: the ranks come out ascending, non-negative and a
   * permutation of the parsed ranks, one table per rank, and the tables line up with the ranks
   * when every table starts with the rank in its file name.
   */
  lemma SortedLoadFacts(files: seq<PositionFile>)
    requires AllNamesHaveRank(files)
    ensures |SortedPositions(files)| == |SortedRanks(files)| == |files|
    ensures Ascending(SortedRanks(files))
    ensures multiset(SortedRanks(files)) == multiset(ParsedRanks(files))
    ensures forall i :: 0 <= i < |files| ==> SortedRanks(files)[i] >= 0
    ensures NamesMatchTables(files) ==> Keys(SortedPositions(files), FirstRank) == SortedRanks(files)
  {
    var ranks := SortedRanks(files);
    ArgSortSorts(ParsedRanks(files));
    forall i | 0 <= i < |files| ensures ranks[i] >= 0 {
      assert ranks[i] in multiset(ParsedRanks(files));
    }
    if NamesMatchTables(files) {
      SortedTablesMatchRanks(files);
    }
  }

  /** `load_pos`, with the directory listing and the CSV reads supplied as `files`. */
  method LoadPos(files: seq<PositionFile>) returns (r: Result<Loaded, LoadError>)
    ensures !AllNamesHaveRank(files) <==> r.Failure? && r.error.NoRankInFileName?
    ensures r.Failure? && r.error.NoRankInFileName? ==>
              exists k :: 0 <= k < |files| && r.error.name == files[k].name
                && RankFromFileName(files[k].name).None? && AllNamesHaveRank(files[..k])
    ensures AllNamesHaveRank(files) ==> (r.Failure? <==> HasEmptyTable(files))
    ensures AllNamesHaveRank(files) && r.Failure? ==> r.error == EmptyTable
    ensures r.Success? <==> LoadsWithoutError(files)
    ensures r.Success? ==> r.value == Loaded(SortedPositions(files), SortedRanks(files))
    ensures r.Success? ==> |r.value.positions| == |r.value.ranks| == |files|
    ensures r.Success? ==> Ascending(r.value.ranks) && multiset(r.value.ranks) == multiset(ParsedRanks(files))
    ensures r.Success? ==> forall i :: 0 <= i < |r.value.ranks| ==> r.value.ranks[i] >= 0
    ensures r.Success? && NamesMatchTables(files) ==> Keys(r.value.positions, FirstRank) == r.value.ranks
  {
    var positionsRaw: seq<CellTable> := [];
    var ranks: seq<int> := [];
    var i := 0;
    while i < |files|
      invariant 0 <= i <= |files|
      invariant forall k :: 0 <= k < i ==> RankFromFileName(files[k].name).Some?
      invariant |positionsRaw| == i && forall k :: 0 <= k < i ==> positionsRaw[k] == files[k].table
      invariant |ranks| == i && forall k :: 0 <= k < i ==> ranks[k] == RankFromFileName(files[k].name).value
    {
      var rank := RankFromFileName(files[i].name);
      if rank.None? {
        assert AllNamesHaveRank(files[..i]);
        return Failure(NoRankInFileName(files[i].name));
      }
      positionsRaw := positionsRaw + [files[i].table];
      ranks := ranks + [rank.value];
      i := i + 1;
    }
    assert positionsRaw == Tables(files);
    assert ranks == ParsedRanks(files);
    if exists k :: 0 <= k < |positionsRaw| && positionsRaw[k].rank == [] {
      return Failure(EmptyTable);
    }
    var sortedIndex := ArgSort(ranks);
    positionsRaw := SortBy(positionsRaw, FirstRank);
    ranks := Gather(ranks, sortedIndex);
    SortedLoadFacts(files);
    r := Success(Loaded(positionsRaw, ranks));
  }
}
