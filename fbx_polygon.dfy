/**
 * The `PolygonVertexIndex` pass of `AK_FBX__Parse_Geometry`: FBX marks the
 * last vertex of each polygon by storing its index bitwise complemented
 * (negative).  The pass writes the plain indices and cuts the list into
 * polygons, each an offset and a count into the index array.
 */
module FbxPolygon {
  import opened Bits

  datatype Polygon = Polygon(offset: nat, count: nat)

  /** A stored index with the closing mark removed: `~x` for a negative `x`. */
  function VertexIndex(x: s32): (r: s32)
    ensures r >= 0
    ensures x < 0 ==> r == -1 - x
    ensures x >= 0 ==> r == x
  {
    if x < 0 then -1 - x else x
  }

  /** The polygons closed at or after `i`, the open polygon having started at `start`. */
  function Split(input: seq<s32>, start: nat, i: nat): seq<Polygon>
    requires start <= i <= |input|
    decreases |input| - i
  {
    if i == |input| then []
    else if input[i] < 0 then [Polygon(start, i - start + 1)] + Split(input, i + 1, i + 1)
    else Split(input, start, i + 1)
  }

  /** The polygons of a whole `PolygonVertexIndex` list. */
  function Polygons(input: seq<s32>): seq<Polygon>
  {
    Split(input, 0, 0)
  }

  /** How many entries are negative: the number of closing marks. */
  function Closings(input: seq<s32>): nat
  {
    if input == [] then 0 else (if input[0] < 0 then 1 else 0) + Closings(input[1..])
  }

  /**
   * The polygons tile the list from `start`: each begins where the previous
   * one ended, has at least one vertex, ends on a negative entry and has no
   * negative entry before that; the entries after the last polygon are all
   * non-negative.
   */
  ghost predicate Tiles(input: seq<s32>, polygons: seq<Polygon>, start: nat)
  {
    && (polygons != [] ==> polygons[0].offset == start)
    && (forall k :: 0 <= k < |polygons| - 1 ==> polygons[k + 1].offset == polygons[k].offset + polygons[k].count)
    && (forall k :: 0 <= k < |polygons| ==> ClosedAt(input, polygons[k]))
    && var end := if polygons == [] then start else polygons[|polygons| - 1].offset + polygons[|polygons| - 1].count;
       end <= |input| && forall j :: end <= j < |input| ==> input[j] >= 0
  }

  /** The polygon has a vertex, lies in the list, ends on a negative entry and has none before. */
  ghost predicate ClosedAt(input: seq<s32>, p: Polygon)
  {
    && p.count >= 1
    && p.offset + p.count <= |input|
    && input[p.offset + p.count - 1] < 0
    && forall j :: p.offset <= j < p.offset + p.count - 1 ==> input[j] >= 0
  }

  /** A closed polygon starting at `start` followed by a tiling from its end tiles from `start`. */
  lemma TilesCons(input: seq<s32>, p: Polygon, rest: seq<Polygon>, start: nat)
    requires p.offset == start && ClosedAt(input, p)
    requires Tiles(input, rest, p.offset + p.count)
    ensures Tiles(input, [p] + rest, start)
  {
    var all := [p] + rest;
    forall k | 0 <= k < |all|
      ensures ClosedAt(input, all[k])
    {
      if k > 0 {
        assert all[k] == rest[k - 1];
      }
    }
    forall k | 0 <= k < |all| - 1
      ensures all[k + 1].offset == all[k].offset + all[k].count
    {
      if k > 0 {
        assert all[k] == rest[k - 1] && all[k + 1] == rest[k];
      }
    }
    assert all[|all| - 1] == if rest == [] then p else rest[|rest| - 1];
  }

  /** `Split` from a position with only non-negative entries since `start` tiles the rest. */
  lemma {:induction false} SplitTiles(input: seq<s32>, start: nat, i: nat)
    requires start <= i <= |input|
    requires forall j :: start <= j < i ==> input[j] >= 0
    ensures Tiles(input, Split(input, start, i), start)
    ensures |Split(input, start, i)| == Closings(input[i..])
    decreases |input| - i
  {
    if i < |input| {
      assert input[i..][1..] == input[i + 1..];
      if input[i] < 0 {
        SplitTiles(input, i + 1, i + 1);
        TilesCons(input, Polygon(start, i - start + 1), Split(input, i + 1, i + 1), start);
      } else {
        SplitTiles(input, start, i + 1);
      }
    }
  }

  /** The polygons of a whole list tile it from offset 0, one per closing mark. */
  lemma PolygonsTile(input: seq<s32>)
    ensures Tiles(input, Polygons(input), 0)
    ensures |Polygons(input)| == Closings(input)
  {
    SplitTiles(input, 0, 0);
    assert input[0..] == input;
  }

  /**
   * The loop of `AK_FBX__Parse_Geometry` over `PolygonVertexIndex` and the
   * copy of its polygon list into the polygon array.
   */
  method DecodePolygonVertexIndex(input: seq<s32>) returns (indices: array<s32>, polygons: array<Polygon>)
    requires |input| < U32_LIMIT
    ensures fresh(indices) && fresh(polygons)
    ensures indices.Length == |input|
    ensures forall i :: 0 <= i < |input| ==> indices[i] == VertexIndex(input[i])
    ensures polygons[..] == Polygons(input)
  {
    indices := new s32[|input|];
    var list: seq<Polygon> := [];
    var start := 0;
    var index := 0;
    while index < |input|
      invariant 0 <= start <= index <= |input|
      invariant forall j :: start <= j < index ==> input[j] >= 0
      invariant list + Split(input, start, index) == Polygons(input)
      invariant forall i :: 0 <= i < index ==> indices[i] == VertexIndex(input[i])
    {
      if input[index] < 0 {
        indices[index] := -1 - input[index];
        var entry := Polygon(start, (index - start) + 1);
        start := index + 1;
        assert Split(input, entry.offset, index) == [entry] + Split(input, start, index + 1);
        assert list + [entry] + Split(input, start, index + 1) == list + ([entry] + Split(input, start, index + 1));
        list := list + [entry];
      } else {
        indices[index] := input[index];
      }
      index := index + 1;
    }
    polygons := CopyPolygons(list);
  }

  /** The copy of the polygon list into a freshly allocated polygon array. */
  method CopyPolygons(list: seq<Polygon>) returns (polygons: array<Polygon>)
    ensures fresh(polygons) && polygons[..] == list
  {
    polygons := new Polygon[|list|];
    var k := 0;
    while k < |list|
      invariant 0 <= k <= |list|
      invariant forall j :: 0 <= j < k ==> polygons[j] == list[j]
      modifies polygons
    {
      polygons[k] := list[k];
      k := k + 1;
    }
    assert polygons[..] == list;
  }
}
