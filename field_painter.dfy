/**
 * `get_field`: paint a per-time, per-rank property onto the rank field. Every pixel whose
 * label is a known rank takes that rank's value at that timestep; every other pixel stays 0.
 */
module FieldPainter {
  import opened Sorting

  /** The last position of `x` in `s`, or -1 if `x` does not occur: later writes of the same label win. */
  function LastIndexOf(s: seq<int>, x: int): (k: int)
    ensures -1 <= k < |s|
    ensures k >= 0 ==> s[k] == x
    ensures forall j :: k < j < |s| ==> s[j] != x
  {
    if s == [] then -1
    else if s[|s| - 1] == x then |s| - 1
    else LastIndexOf(s[..|s| - 1], x)
  }

  /** The value a pixel labelled `pixelRank` at timestep `t` holds once the ranks `ranks` are painted. */
  function PaintedValue(a: array2<real>, ranks: seq<int>, t: int, pixelRank: int): real
    requires 0 <= t < a.Length0 && |ranks| <= a.Length1
    reads a
  {
    var k := LastIndexOf(ranks, pixelRank);
    if k >= 0 then a[t, k] else 0.0
  }

  predicate SameShape(field: array3<real>, rankfield: array3<int>)
  {
    field.Length0 == rankfield.Length0 && field.Length1 == rankfield.Length1 && field.Length2 == rankfield.Length2
  }

  /**
   * `a_field[t][rankfield[t] == pixelRank] = value`: a masked assignment that changes only the
   * pixels of timestep `t` labelled `pixelRank`.
   */
  method PaintLabel(field: array3<real>, rankfield: array3<int>, t: int, pixelRank: int, value: real)
    requires SameShape(field, rankfield) && 0 <= t < field.Length0
    modifies field
    ensures forall s, y, x :: 0 <= s < field.Length0 && 0 <= y < field.Length1 && 0 <= x < field.Length2 ==>
              field[s, y, x] == if s == t && rankfield[t, y, x] == pixelRank then value else old(field[s, y, x])
  {
    var y := 0;
    while y < field.Length1
      invariant 0 <= y <= field.Length1
      invariant forall s, y', x :: 0 <= s < field.Length0 && 0 <= y' < field.Length1 && 0 <= x < field.Length2 ==>
                  field[s, y', x] == if s == t && y' < y && rankfield[t, y', x] == pixelRank then value else old(field[s, y', x])
    {
      var x := 0;
      while x < field.Length2
        invariant 0 <= x <= field.Length2
        invariant forall s, y', x' :: 0 <= s < field.Length0 && 0 <= y' < field.Length1 && 0 <= x' < field.Length2 ==>
                    field[s, y', x'] ==
                      if s == t && (y' < y || (y' == y && x' < x)) && rankfield[t, y', x'] == pixelRank then value
                      else old(field[s, y', x'])
      {
        if rankfield[t, y, x] == pixelRank {
          field[t, y, x] := value;
        }
        x := x + 1;
      }
      y := y + 1;
    }
  }

  /**
   * `get_field(a)`: a zero field of the rank field's shape, painted timestep by timestep and
   * rank by rank. `numTimes` is `len(times)`; `a[t, i]` is the value of `ranks[i]` at timestep `t`.
   */
  method GetField(rankfield: array3<int>, numTimes: nat, ranks: seq<int>, a: array2<real>) returns (field: array3<real>)
    requires numTimes <= rankfield.Length0
    requires numTimes <= a.Length0 && |ranks| <= a.Length1
    ensures fresh(field) && SameShape(field, rankfield)
    ensures forall t, y, x :: 0 <= t < field.Length0 && 0 <= y < field.Length1 && 0 <= x < field.Length2 ==>
              field[t, y, x] == if t < numTimes then PaintedValue(a, ranks, t, rankfield[t, y, x]) else 0.0
    ensures Distinct(ranks) ==>
              forall t, i, y, x ::
                (0 <= t < numTimes && 0 <= i < |ranks| && 0 <= y < field.Length1 && 0 <= x < field.Length2
                 && rankfield[t, y, x] == ranks[i]) ==> field[t, y, x] == a[t, i]
    ensures forall t, y, x ::
              (0 <= t < field.Length0 && 0 <= y < field.Length1 && 0 <= x < field.Length2
               && rankfield[t, y, x] !in ranks) ==> field[t, y, x] == 0.0
  {
    field := new real[rankfield.Length0, rankfield.Length1, rankfield.Length2]((t, y, x) => 0.0);
    var indt := 0;
    while indt < numTimes
      invariant 0 <= indt <= numTimes
      invariant forall t, y, x :: 0 <= t < field.Length0 && 0 <= y < field.Length1 && 0 <= x < field.Length2 ==>
                  field[t, y, x] == if t < indt then PaintedValue(a, ranks, t, rankfield[t, y, x]) else 0.0
    {
      var indr := 0;
      while indr < |ranks|
        invariant 0 <= indr <= |ranks|
        invariant forall t, y, x :: 0 <= t < field.Length0 && 0 <= y < field.Length1 && 0 <= x < field.Length2 ==>
                    field[t, y, x] ==
                      if t < indt then PaintedValue(a, ranks, t, rankfield[t, y, x])
                      else if t == indt then PaintedValue(a, ranks[..indr], t, rankfield[t, y, x])
                      else 0.0
      {
        assert ranks[..indr + 1][..indr] == ranks[..indr];
        PaintLabel(field, rankfield, indt, ranks[indr], a[indt, indr]);
        indr := indr + 1;
      }
      assert ranks[..indr] == ranks;
      indt := indt + 1;
    }
  }

  /**
   * Two cells over two timesteps: rank 0 owns the left pixel, rank 1 the right one. The left
   * pixel shows rank 0's values over time, the right pixel rank 1's.
   */
  method TwoCellsExample()
  {
    var rankfield := new int[2, 1, 2]((t, y, x) => x);
    var a := new real[2, 2];
    a[0, 0], a[0, 1], a[1, 0], a[1, 1] := 1.0, 2.0, 3.0, 4.0;
    var field := GetField(rankfield, 2, [0, 1], a);
    assert field[0, 0, 0] == 1.0 && field[1, 0, 0] == 3.0;
    assert field[0, 0, 1] == 2.0 && field[1, 0, 1] == 4.0;
  }
}
