/**
 * `load_property` and `load_fields`: the closed switch on the property name, the per-rank
 * arrays each name derives, and the fields painted from them.
 */
module Properties {
  import opened Wrappers
  import opened RankName
  import opened Sorting
  import opened Positions
  import opened PropertyGather
  import opened FieldPainter

  datatype Property = Velocity | NormalisedNematic | Nematic | VelocityAngle | NematicAngle

  /** The name a caller passes for each property. */
  function Name(p: Property): string
  {
    match p
    case Velocity => "velocity"
    case NormalisedNematic => "normalised nematic"
    case Nematic => "nematic"
    case VelocityAngle => "velocity angle"
    case NematicAngle => "nematic angle"
  }

  /** The string comparisons of the dispatch; `None` when no branch matches. */
  function ParseProperty(name: string): (p: Option<Property>)
    ensures p.Some? ==> Name(p.value) == name
    ensures p.None? <==>
              name !in {"velocity", "normalised nematic", "nematic", "velocity angle", "nematic angle"}
  {
    if name == "velocity" then Some(Velocity)
    else if name == "normalised nematic" then Some(NormalisedNematic)
    else if name == "nematic" then Some(Nematic)
    else if name == "velocity angle" then Some(VelocityAngle)
    else if name == "nematic angle" then Some(NematicAngle)
    else None
  }

  /** Every property's name selects that property. */
  lemma ParsePropertyOfName(p: Property)
    ensures ParseProperty(Name(p)) == Some(p)
  {
  }

  /** The properties `load_fields` returns as a pair of fields (`prop2D`); the rest give one field. */
  predicate IsPair(p: Property)
  {
    p == Velocity || p == NormalisedNematic || p == Nematic
  }

  /** The two table columns each property is gathered from. */
  function SourceColumns(p: Property): (Column, Column)
  {
    match p
    case Velocity => (V0, V1)
    case NormalisedNematic => (S0, S1)
    case Nematic => (S0Full, S1Full)
    case VelocityAngle => (V0, V1)
    case NematicAngle => (S0Full, S1Full)
  }

  /**
   * The transcendental formulas, taken as given: `velocityAngle(v0, v1)` is `arctan2(v1, v0)`,
   * `nematicAngle(S0, S1)` is `sign(S1) * (arctan(S0 / |S1|) / 2 + π/4)`.
   */
  datatype Angles = Angles(velocityAngle: (real, real) -> real, nematicAngle: (real, real) -> real)

  function AngleFunction(p: Property, angles: Angles): (real, real) -> real
  {
    if p == NematicAngle then angles.nematicAngle else angles.velocityAngle
  }

  /** What `load_property` returns: two per-rank arrays, or one angle array. */
  datatype PropertyArrays = PairArrays(first: array2<real>, second: array2<real>) | AngleArray(angle: array2<real>)

  /** What `load_fields` returns: two fields, or one angle field. */
  datatype Fields = PairFields(first: array3<real>, second: array3<real>) | AngleField(angle: array3<real>)

  /** Both column writes of the gather loop stay in bounds. */
  predicate GatherFits(files: seq<PositionFile>, numTimes: nat, p: Property)
    requires LoadsWithoutError(files)
  {
    GatherInBounds(SortedPositions(files), SortedRanks(files), numTimes, SourceColumns(p).0)
    && GatherInBounds(SortedPositions(files), SortedRanks(files), numTimes, SourceColumns(p).1)
  }

  /**
   * Entry `[t, c]` of the property array (`second` selects the second array of a pair):
   * the gathered column itself, or the angle of the two gathered columns.
   */
  function PropertyEntry(files: seq<PositionFile>, numTimes: nat, p: Property, angles: Angles, second: bool, t: int, c: int): real
    requires LoadsWithoutError(files) && GatherFits(files, numTimes, p) && 0 <= t < numTimes
  {
    var g0 := Gathered(SortedPositions(files), SortedRanks(files), numTimes, SourceColumns(p).0, t, c);
    var g1 := Gathered(SortedPositions(files), SortedRanks(files), numTimes, SourceColumns(p).1, t, c);
    if !IsPair(p) then AngleFunction(p, angles)(g0, g1) else if second then g1 else g0
  }

  /** The value of pixel rank `pixelRank` at timestep `t` in the painted field. */
  function PixelValue(files: seq<PositionFile>, numTimes: nat, p: Property, angles: Angles, second: bool, t: int, pixelRank: int): real
    requires LoadsWithoutError(files) && GatherFits(files, numTimes, p) && 0 <= t < numTimes
  {
    var k := LastIndexOf(SortedRanks(files), pixelRank);
    if k >= 0 then PropertyEntry(files, numTimes, p, angles, second, t, k) else 0.0
  }

  /** The value one cell's table gives a property at timestep `t`. */
  function TableEntry(table: CellTable, numTimes: nat, p: Property, angles: Angles, second: bool, t: int): real
    requires ColumnFits(ColumnOf(table, SourceColumns(p).0), numTimes)
    requires ColumnFits(ColumnOf(table, SourceColumns(p).1), numTimes)
    requires 0 <= t < numTimes
  {
    var x0 := Broadcast(ColumnOf(table, SourceColumns(p).0), numTimes)[t];
    var x1 := Broadcast(ColumnOf(table, SourceColumns(p).1), numTimes)[t];
    if !IsPair(p) then AngleFunction(p, angles)(x0, x1) else if second then x1 else x0
  }

  predicate IsPropertyArray(m: array2<real>, files: seq<PositionFile>, numTimes: nat, p: Property, angles: Angles, second: bool)
    requires LoadsWithoutError(files) && GatherFits(files, numTimes, p)
    reads m
  {
    m.Length0 == numTimes && m.Length1 == |files|
    && forall t, c :: 0 <= t < numTimes && 0 <= c < |files| ==> m[t, c] == PropertyEntry(files, numTimes, p, angles, second, t, c)
  }

  predicate IsPropertyField(f: array3<real>, rankfield: array3<int>, files: seq<PositionFile>, numTimes: nat, p: Property, angles: Angles, second: bool)
    requires LoadsWithoutError(files) && GatherFits(files, numTimes, p) && rankfield.Length0 == numTimes
    reads f, rankfield
  {
    SameShape(f, rankfield)
    && forall t, y, x :: 0 <= t < f.Length0 && 0 <= y < f.Length1 && 0 <= x < f.Length2 ==>
         f[t, y, x] == PixelValue(files, numTimes, p, angles, second, t, rankfield[t, y, x])
  }

  /** Distinct loaded ranks that pass the gather are `0 … n - 1`. */
  lemma LoadedRanksDense(files: seq<PositionFile>, numTimes: nat, p: Property)
    requires LoadsWithoutError(files) && GatherFits(files, numTimes, p)
    requires Distinct(SortedRanks(files))
    ensures forall i :: 0 <= i < |files| ==> SortedRanks(files)[i] == i
  {
    ArgSortSorts(ParsedRanks(files));
    DenseRanks(SortedRanks(files));
  }

  /**
   * End to end, for distinct ranks: a pixel whose label is a loaded rank `L` shows the property
   * of the `L`-th table in rank order; every other pixel shows 0.
   */
  lemma PixelShowsOwnCell(files: seq<PositionFile>, numTimes: nat, p: Property, angles: Angles, second: bool, t: int, pixelRank: int)
    requires LoadsWithoutError(files) && GatherFits(files, numTimes, p) && 0 <= t < numTimes
    requires Distinct(SortedRanks(files))
    ensures !(0 <= pixelRank < |files|) ==> PixelValue(files, numTimes, p, angles, second, t, pixelRank) == 0.0
    ensures 0 <= pixelRank < |files| ==>
              ColumnFits(ColumnOf(SortedPositions(files)[pixelRank], SourceColumns(p).0), numTimes)
              && ColumnFits(ColumnOf(SortedPositions(files)[pixelRank], SourceColumns(p).1), numTimes)
              && PixelValue(files, numTimes, p, angles, second, t, pixelRank)
                 == TableEntry(SortedPositions(files)[pixelRank], numTimes, p, angles, second, t)
  {
    var positions, ranks := SortedPositions(files), SortedRanks(files);
    var (c0, c1) := SourceColumns(p);
    LoadedRanksDense(files, numTimes, p);
    var k := LastIndexOf(ranks, pixelRank);
    if 0 <= pixelRank < |files| {
      assert ranks[pixelRank] == pixelRank;
      assert k == pixelRank;
      var g0 := Gathered(positions, ranks, numTimes, c0, t, k);
      var g1 := Gathered(positions, ranks, numTimes, c1, t, k);
      assert g0 == Broadcast(ColumnOf(positions[pixelRank], c0), numTimes)[t];
      assert g1 == Broadcast(ColumnOf(positions[pixelRank], c1), numTimes)[t];
      assert PixelValue(files, numTimes, p, angles, second, t, pixelRank)
             == if !IsPair(p) then AngleFunction(p, angles)(g0, g1) else if second then g1 else g0;
    } else {
      assert k == -1;
    }
  }

  /**
   * When every table starts with the rank in its file name, the `L`-th table in rank order,
   * which paints the pixels labelled `L`, is the table of cell `L`.
   */
  lemma PaintingTableOwnsRank(files: seq<PositionFile>, numTimes: nat, p: Property, pixelRank: int)
    requires LoadsWithoutError(files) && GatherFits(files, numTimes, p)
    requires Distinct(SortedRanks(files)) && NamesMatchTables(files)
    requires 0 <= pixelRank < |files|
    ensures FirstRank(SortedPositions(files)[pixelRank]) == pixelRank
  {
    LoadedRanksDense(files, numTimes, p);
    SortedTablesMatchRanks(files);
    assert Keys(SortedPositions(files), FirstRank)[pixelRank] == SortedRanks(files)[pixelRank];
  }

  /** Painting a property array with the loaded ranks yields the property field. */
  lemma PaintedPropertyField(f: array3<real>, rankfield: array3<int>, m: array2<real>, files: seq<PositionFile>, numTimes: nat, p: Property, angles: Angles, second: bool)
    requires LoadsWithoutError(files) && GatherFits(files, numTimes, p) && rankfield.Length0 == numTimes
    requires IsPropertyArray(m, files, numTimes, p, angles, second)
    requires SameShape(f, rankfield)
    requires forall t, y, x :: 0 <= t < f.Length0 && 0 <= y < f.Length1 && 0 <= x < f.Length2 ==>
               f[t, y, x] == if t < numTimes then PaintedValue(m, SortedRanks(files), t, rankfield[t, y, x]) else 0.0
    ensures IsPropertyField(f, rankfield, files, numTimes, p, angles, second)
  {
  }

  /** `load_property(input_dir, name)` with the files and the time axis supplied. */
  method LoadProperty(files: seq<PositionFile>, times: seq<real>, name: string, angles: Angles)
    returns (r: Result<Option<PropertyArrays>, LoadError>)
    ensures !LoadsWithoutError(files) ==> r.Failure? && r.error != GatherFault
    ensures !AllNamesHaveRank(files) ==>
              r.Failure? && r.error.NoRankInFileName?
              && exists k :: 0 <= k < |files| && r.error.name == files[k].name
                   && RankFromFileName(files[k].name).None? && AllNamesHaveRank(files[..k])
    ensures AllNamesHaveRank(files) && HasEmptyTable(files) ==> r == Failure(EmptyTable)
    ensures LoadsWithoutError(files) && ParseProperty(name).None? ==> r == Success(None)
    ensures LoadsWithoutError(files) && ParseProperty(name).Some? ==>
              (r.Failure? <==> !GatherFits(files, |times|, ParseProperty(name).value))
              && (r.Failure? ==> r.error == GatherFault)
              && (r.Success? ==> r.value.Some?)
    ensures r.Success? && r.value.Some? ==>
              LoadsWithoutError(files) && ParseProperty(name).Some?
              && GatherFits(files, |times|, ParseProperty(name).value)
              && (r.value.value.PairArrays? <==> IsPair(ParseProperty(name).value))
    ensures r.Success? && r.value.Some? && r.value.value.PairArrays? ==>
              fresh(r.value.value.first) && fresh(r.value.value.second)
              && IsPropertyArray(r.value.value.first, files, |times|, ParseProperty(name).value, angles, false)
              && IsPropertyArray(r.value.value.second, files, |times|, ParseProperty(name).value, angles, true)
    ensures r.Success? && r.value.Some? && r.value.value.AngleArray? ==>
              fresh(r.value.value.angle)
              && IsPropertyArray(r.value.value.angle, files, |times|, ParseProperty(name).value, angles, false)
  {
    var loaded := LoadPos(files);
    if loaded.Failure? {
      return Failure(loaded.error);
    }
    var positions, ranks := loaded.value.positions, loaded.value.ranks;
    var prop := ParseProperty(name);
    if prop.None? {
      return Success(None);
    }
    var p := prop.value;
    var (c0, c1) := SourceColumns(p);
    if !(GatherInBounds(positions, ranks, |times|, c0) && GatherInBounds(positions, ranks, |times|, c1)) {
      return Failure(GatherFault);
    }
    var m0, m1 := GatherPair(positions, ranks, |times|, c0, c1);
    if IsPair(p) {
      return Success(Some(PairArrays(m0, m1)));
    }
    var angle := Elementwise(m0, m1, AngleFunction(p, angles));
    return Success(Some(AngleArray(angle)));
  }

  /**
   * `load_fields(input_dir, name)`: the per-rank arrays of `load_property`, each painted onto the
   * rank field with `get_field`. The rank field comes with one snapshot per time.
   */
  method LoadFields(files: seq<PositionFile>, rankfield: array3<int>, times: seq<real>, name: string, angles: Angles)
    returns (r: Result<Option<Fields>, LoadError>)
    requires rankfield.Length0 == |times|
    ensures !LoadsWithoutError(files) ==> r.Failure? && r.error != GatherFault
    ensures !AllNamesHaveRank(files) ==>
              r.Failure? && r.error.NoRankInFileName?
              && exists k :: 0 <= k < |files| && r.error.name == files[k].name
                   && RankFromFileName(files[k].name).None? && AllNamesHaveRank(files[..k])
    ensures AllNamesHaveRank(files) && HasEmptyTable(files) ==> r == Failure(EmptyTable)
    ensures LoadsWithoutError(files) && ParseProperty(name).None? ==> r == Success(None)
    ensures LoadsWithoutError(files) && ParseProperty(name).Some? ==>
              (r.Failure? <==> !GatherFits(files, |times|, ParseProperty(name).value))
              && (r.Failure? ==> r.error == GatherFault)
              && (r.Success? ==> r.value.Some?)
    ensures r.Success? && r.value.Some? ==>
              LoadsWithoutError(files) && ParseProperty(name).Some?
              && GatherFits(files, |times|, ParseProperty(name).value)
              && (r.value.value.PairFields? <==> IsPair(ParseProperty(name).value))
    ensures r.Success? && r.value.Some? && r.value.value.PairFields? ==>
              fresh(r.value.value.first) && fresh(r.value.value.second)
              && IsPropertyField(r.value.value.first, rankfield, files, |times|, ParseProperty(name).value, angles, false)
              && IsPropertyField(r.value.value.second, rankfield, files, |times|, ParseProperty(name).value, angles, true)
    ensures r.Success? && r.value.Some? && r.value.value.AngleField? ==>
              fresh(r.value.value.angle)
              && IsPropertyField(r.value.value.angle, rankfield, files, |times|, ParseProperty(name).value, angles, false)
  {
    var loaded := LoadPos(files);
    if loaded.Failure? {
      return Failure(loaded.error);
    }
    var ranks := loaded.value.ranks;
    var prop := ParseProperty(name);
    if prop.None? {
      return Success(None);
    }
    var arrays := LoadProperty(files, times, name, angles);
    if arrays.Failure? {
      return Failure(arrays.error);
    }
    match arrays.value
    case None =>
      assert false;
      return Success(None);
    case Some(PairArrays(m0, m1)) =>
      var f0 := GetField(rankfield, |times|, ranks, m0);
      PaintedPropertyField(f0, rankfield, m0, files, |times|, prop.value, angles, false);
      var f1 := GetField(rankfield, |times|, ranks, m1);
      PaintedPropertyField(f1, rankfield, m1, files, |times|, prop.value, angles, true);
      return Success(Some(PairFields(f0, f1)));
    case Some(AngleArray(m)) =>
      var f := GetField(rankfield, |times|, ranks, m);
      PaintedPropertyField(f, rankfield, m, files, |times|, prop.value, angles, false);
      return Success(Some(AngleField(f)));
  }
}
