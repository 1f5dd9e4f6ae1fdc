/**
  The CPU side of a height mesh (HeightMesh in heightMesh.cpp, the base of
  the terrain mesh and the water mesh): an index buffer of two triangles per
  grid quad, a per-vertex height copied from a height map, per-vertex normals
  accumulated from the quads, and the generated / needSendGPU flags the
  erosion loop polls. The GPU uploads themselves are not part of this model.
 */
module Meshes {
  import opened Layout
  import opened Vectors

  // ---------------------------------------------------------------------------
  // The index buffer

  /** Number of slots in the index buffer: six per quad, (xW - 1) (zW - 1) quads. */
  function NumIndices(xW: int, zW: int): int
  {
    (xW - 1) * (zW - 1) * 6
  }

  /** First slot of quad (z, x) of a mesh whose rows hold xW vertices. */
  function Slot(xW: int, z: int, x: int): int
  {
    (z * (xW - 1) + x) * 6
  }

  /** The j-th vertex index of quad (z, x): triangles (z,x) (z+1,x) (z+1,x+1) and (z,x) (z+1,x+1) (z,x+1). */
  function QuadIndex(xW: int, z: int, x: int, j: int): int
  {
    if j == 0 || j == 3 then Idx(xW, z, x)
    else if j == 1 then Idx(xW, z + 1, x)
    else if j == 2 || j == 4 then Idx(xW, z + 1, x + 1)
    else Idx(xW, z, x + 1)
  }

  /** The value of slot k: slot k belongs to quad k / 6, at position k % 6 within it. */
  function IndexAt(xW: int, k: int): int
  {
    if xW < 2 then 0
    else
      var q := k / 6;
      QuadIndex(xW, q / (xW - 1), q % (xW - 1), k % 6)
  }

  lemma NumIndicesNonNegative(xW: int, zW: int)
    requires xW >= 1 && zW >= 1
    ensures NumIndices(xW, zW) >= 0
  {
    MulMono(0, xW - 1, zW - 1);
  }

  /** Consecutive quads of a row have consecutive slot groups. */
  lemma SlotNext(xW: int, z: int, x: int)
    ensures Slot(xW, z, x + 1) == Slot(xW, z, x) + 6
  {
  }

  /** The slot after the last quad of a row is the first slot of the next row. */
  lemma SlotRowNext(xW: int, z: int)
    ensures Slot(xW, z, xW - 1) == Slot(xW, z + 1, 0)
  {
    assert (z + 1) * (xW - 1) == z * (xW - 1) + (xW - 1);
  }

  /** The slot after the last quad of the last row is the end of the buffer. */
  lemma SlotEnd(xW: int, zW: int)
    ensures Slot(xW, zW - 1, 0) == NumIndices(xW, zW)
  {
    assert (zW - 1) * (xW - 1) == (xW - 1) * (zW - 1);
  }

  /** Slot j of quad (z, x) holds the quad's j-th vertex. */
  lemma SlotDecode(xW: int, z: int, x: int, j: int)
    requires xW >= 2 && 0 <= x < xW - 1 && 0 <= j < 6
    ensures IndexAt(xW, Slot(xW, z, x) + j) == QuadIndex(xW, z, x, j)
  {
    var q := Idx(xW - 1, z, x);
    assert Slot(xW, z, x) + j == Idx(6, q, j);
    DivMod(6, q, j);
    DivMod(xW - 1, z, x);
  }

  /** The six slots of quad (z, x) lie inside the index buffer. */
  lemma SlotInRange(xW: int, zW: int, z: int, x: int)
    requires 0 <= z < zW - 1 && 0 <= x < xW - 1
    ensures 0 <= Slot(xW, z, x) && Slot(xW, z, x) + 6 <= NumIndices(xW, zW)
  {
    IdxInRange(xW - 1, zW - 1, z, x);
    var q := Idx(xW - 1, z, x);
    MulMono(0, q, 6);
    MulMono(q + 1, (zW - 1) * (xW - 1), 6);
    assert (zW - 1) * (xW - 1) * 6 == NumIndices(xW, zW);
  }

  /** Distinct quads, or distinct positions in one quad, never share a slot. */
  lemma SlotsDisjoint(xW: int, z1: int, x1: int, j1: int, z2: int, x2: int, j2: int)
    requires xW >= 2 && 0 <= x1 < xW - 1 && 0 <= x2 < xW - 1 && 0 <= j1 < 6 && 0 <= j2 < 6
    requires Slot(xW, z1, x1) + j1 == Slot(xW, z2, x2) + j2
    ensures z1 == z2 && x1 == x2 && j1 == j2
  {
    var q1, q2 := Idx(xW - 1, z1, x1), Idx(xW - 1, z2, x2);
    assert Idx(6, q1, j1) == Idx(6, q2, j2);
    IdxInjective(6, q1, j1, q2, j2);
    IdxInjective(xW - 1, z1, x1, z2, x2);
  }

  /** A non-empty index buffer needs at least two vertices in each direction. */
  lemma QuadsExist(xW: int, zW: int)
    requires xW >= 1 && zW >= 1 && NumIndices(xW, zW) > 0
    ensures xW >= 2 && zW >= 2
  {
  }

  /** Every slot of the buffer is slot k % 6 of a quad of the grid, so the fill writes each slot once. */
  lemma SlotOwner(xW: int, zW: int, k: int)
    requires 0 <= k < NumIndices(xW, zW) && xW >= 1 && zW >= 1
    ensures xW >= 2 && zW >= 2
    ensures var q := k / 6;
            0 <= q / (xW - 1) < zW - 1 && 0 <= q % (xW - 1) &&
            Slot(xW, q / (xW - 1), q % (xW - 1)) + k % 6 == k
  {
    QuadsExist(xW, zW);
    var q := k / 6;
    DivBelow(k, 6, (xW - 1) * (zW - 1));
    assert (xW - 1) * (zW - 1) == (zW - 1) * (xW - 1);
    DivBelow(q, xW - 1, zW - 1);
  }

  /** Every value the index buffer holds names a vertex of the mesh. */
  lemma IndexInRange(xW: int, zW: int, k: int)
    requires 0 <= k < NumIndices(xW, zW) && xW >= 1 && zW >= 1
    ensures 0 <= IndexAt(xW, k) < xW * zW
  {
    SlotOwner(xW, zW, k);
    var q := k / 6;
    var z, x := q / (xW - 1), q % (xW - 1);
    IdxInRange(xW, zW, z, x);
    IdxInRange(xW, zW, z + 1, x);
    IdxInRange(xW, zW, z + 1, x + 1);
    IdxInRange(xW, zW, z, x + 1);
  }

  /** The two triangles of a quad share the diagonal: slots 0 and 3, and slots 2 and 4, agree. */
  lemma SharedDiagonal(xW: int, k: int)
    requires k >= 0 && k % 6 == 0
    ensures IndexAt(xW, k) == IndexAt(xW, k + 3) && IndexAt(xW, k + 2) == IndexAt(xW, k + 4)
  {
    var q := k / 6;
    assert k == Idx(6, q, 0);
    DivMod(6, q, 2);
    DivMod(6, q, 3);
    DivMod(6, q, 4);
  }

  // ---------------------------------------------------------------------------
  // The normals

  /** Flat index of vertex (z, x) of an xW-by-zW mesh, with its bound. */
  function Vert(xW: int, zW: int, z: int, x: int): (r: nat)
    requires InGrid(xW, zW, z, x)
    ensures r < xW * zW && r == Idx(xW, z, x)
  {
    IdxInRange(xW, zW, z, x);
    Idx(xW, z, x)
  }

  /** Quad (z, x) with its far corner inside the mesh. */
  predicate QuadIn(xW: int, zW: int, z: int, x: int)
  {
    0 <= z && z + 1 < zW && 0 <= x && x + 1 < xW
  }

  /** The face normals of the two triangles of a quad. */
  datatype QuadNormal = QuadNormal(n1: Vec3, n2: Vec3)

  function QuadNormals(xW: int, zW: int, h: seq<real>, z: int, x: int): QuadNormal
    requires |h| == xW * zW && QuadIn(xW, zW, z, x)
  {
    var v0 := Vec3(x as real, h[Vert(xW, zW, z, x)], z as real);
    var v1 := Vec3(x as real, h[Vert(xW, zW, z + 1, x)], (z + 1) as real);
    var v2 := Vec3((x + 1) as real, h[Vert(xW, zW, z + 1, x + 1)], (z + 1) as real);
    var v3 := Vec3((x + 1) as real, h[Vert(xW, zW, z, x + 1)], z as real);
    QuadNormal(Cross(Sub(v1, v0), Sub(v2, v0)), Cross(Sub(v2, v0), Sub(v3, v0)))
  }

  /** Adds the normals q of quad (z, x) into its four corners, in the order the mesh does. */
  function AccumQuad(xW: int, zW: int, q: QuadNormal, z: int, x: int, ns: seq<Vec3>): (r: seq<Vec3>)
    requires |ns| == xW * zW && QuadIn(xW, zW, z, x)
    ensures |r| == |ns|
  {
    var n3 := Add(q.n1, q.n2);
    var i0, i1, i2, i3 := Vert(xW, zW, z, x), Vert(xW, zW, z + 1, x), Vert(xW, zW, z + 1, x + 1), Vert(xW, zW, z, x + 1);
    var a := ns[i0 := Add(ns[i0], n3)];
    var b := a[i1 := Add(a[i1], q.n1)];
    var c := b[i2 := Add(b[i2], n3)];
    c[i3 := Add(c[i3], q.n2)]
  }

  /** Heights and normals of the mesh's shape, and a row z of the normal loop. */
  predicate RowPoint(xW: int, zW: int, h: seq<real>, z: int, ns: seq<Vec3>)
  {
    |h| == xW * zW && |ns| == xW * zW && 1 <= z < zW - 2
  }

  /** Quads (z, 1) .. (z, x - 1) of row z, in order, each adding the face normals of heights h into its corners of ns. */
  function RowQuads(xW: int, zW: int, h: seq<real>, z: int, x: int, ns: seq<Vec3>): (r: seq<Vec3>)
    requires RowPoint(xW, zW, h, z, ns) && 1 <= x <= Span(xW - 2)
    ensures |r| == |ns|
    decreases x
  {
    if x == 1 then ns
    else AccumQuad(xW, zW, QuadNormals(xW, zW, h, z, x - 1), z, x - 1, RowQuads(xW, zW, h, z, x - 1, ns))
  }

  /** Where the normal loop stands before row z: every row of quads 1 .. z - 1, starting from ns. */
  function RowsBefore(xW: int, zW: int, h: seq<real>, z: int, ns: seq<Vec3>): (r: seq<Vec3>)
    requires |h| == xW * zW && |ns| == xW * zW && 1 <= z <= Span(zW - 2)
    ensures |r| == |ns|
    decreases z
  {
    if z == 1 then ns else RowQuads(xW, zW, h, z - 1, Span(xW - 2), RowsBefore(xW, zW, h, z - 1, ns))
  }

  /** The normal pass: every quad strictly inside the outer quad ring adds its face normals into its corners. */
  function NormalPass(xW: int, zW: int, h: seq<real>, ns: seq<Vec3>): (r: seq<Vec3>)
    requires |h| == xW * zW && |ns| == xW * zW
    ensures |r| == |ns|
  {
    RowsBefore(xW, zW, h, Span(zW - 2), ns)
  }

  function Zeros(n: nat): (r: seq<Vec3>)
    ensures |r| == n && forall i :: 0 <= i < n ==> r[i] == Zero
  {
    seq(n, _ => Zero)
  }

  /** Vertex i lies on the outer ring of the mesh. */
  predicate OnRing(xW: int, zW: int, i: int)
    requires xW >= 1
  {
    i % xW == 0 || i % xW == xW - 1 || i / xW == 0 || i / xW == zW - 1
  }

  lemma AccumQuadKeepsRing(xW: int, zW: int, q: QuadNormal, z: int, x: int, ns: seq<Vec3>, i: int)
    requires |ns| == xW * zW && 1 <= z < zW - 2 && 1 <= x < xW - 2
    requires 0 <= i < xW * zW && OnRing(xW, zW, i)
    ensures AccumQuad(xW, zW, q, z, x, ns)[i] == ns[i]
  {
    DivMod(xW, z, x);
    DivMod(xW, z + 1, x);
    DivMod(xW, z + 1, x + 1);
    DivMod(xW, z, x + 1);
  }

  lemma {:induction false} RowQuadsKeepRing(xW: int, zW: int, h: seq<real>, z: int, x: int, ns: seq<Vec3>, i: int)
    requires RowPoint(xW, zW, h, z, ns) && 1 <= x <= Span(xW - 2)
    requires 0 <= i < xW * zW && xW >= 1 && OnRing(xW, zW, i)
    ensures RowQuads(xW, zW, h, z, x, ns)[i] == ns[i]
    decreases x
  {
    if x > 1 {
      RowQuadsKeepRing(xW, zW, h, z, x - 1, ns, i);
      AccumQuadKeepsRing(xW, zW, QuadNormals(xW, zW, h, z, x - 1), z, x - 1, RowQuads(xW, zW, h, z, x - 1, ns), i);
    }
  }

  lemma {:induction false} RowsBeforeKeepRing(xW: int, zW: int, h: seq<real>, z: int, ns: seq<Vec3>, i: int)
    requires |h| == xW * zW && |ns| == xW * zW && 1 <= z <= Span(zW - 2)
    requires 0 <= i < xW * zW && xW >= 1 && OnRing(xW, zW, i)
    ensures RowsBefore(xW, zW, h, z, ns)[i] == ns[i]
    decreases z
  {
    if z > 1 {
      RowsBeforeKeepRing(xW, zW, h, z - 1, ns, i);
      RowQuadsKeepRing(xW, zW, h, z - 1, Span(xW - 2), RowsBefore(xW, zW, h, z - 1, ns), i);
    }
  }

  /** Normals are accumulated only into vertices off the outer ring, so ring normals stay zero. */
  lemma RingNormalsStayZero(xW: int, zW: int, h: seq<real>, i: int)
    requires |h| == xW * zW && xW >= 1 && zW >= 1
    requires 0 <= i < xW * zW && OnRing(xW, zW, i)
    ensures NormalPass(xW, zW, h, Zeros(xW * zW))[i] == Zero
  {
    RowsBeforeKeepRing(xW, zW, h, Span(zW - 2), Zeros(xW * zW), i);
  }

  // ---------------------------------------------------------------------------
  // The mesh object

  class HeightMesh {
    var heights: array<real>
    var normals: array<Vec3>
    var indices: array<int>
    var cellSize: real
    var xWidth: int
    var zWidth: int
    var createdOnGPU: bool
    var numIndices: int
    var generated: bool
    var needSendGPU: bool

    /** A generated mesh has buffers of the sizes its widths give, and its index buffer holds the quads. */
    predicate Valid()
      reads this, indices
    {
      generated ==> Shaped() && Indexed()
    }

    /** Widths of at least one vertex, and buffers of the sizes the widths give. */
    predicate Shaped()
      reads this
    {
      xWidth >= 1 && zWidth >= 1 &&
      heights.Length == xWidth * zWidth && normals.Length == xWidth * zWidth &&
      numIndices == NumIndices(xWidth, zWidth) && indices.Length == numIndices
    }

    /** Every slot of the index buffer holds its quad's vertex. */
    predicate Indexed()
      reads this, indices
    {
      indices.Length == numIndices && forall k :: 0 <= k < numIndices ==> indices[k] == IndexAt(xWidth, k)
    }

    /** The default mesh: 256 by 256 vertices of size 1, nothing generated yet. */
    constructor ()
      ensures Valid() && !generated && !needSendGPU && !createdOnGPU && numIndices == 0
      ensures cellSize == 1.0 && xWidth == 256 && zWidth == 256
      ensures fresh(heights) && fresh(normals) && fresh(indices)
    {
      heights := new real[0];
      normals := new Vec3[0];
      indices := new int[0];
      cellSize := 1.0;
      xWidth := 256;
      zWidth := 256;
      createdOnGPU := false;
      numIndices := 0;
      generated := false;
      needSendGPU := false;
    }

    /** Sets the cell size and the widths; a generated mesh keeps its widths, since its buffers are not reallocated. */
    method Init(cellSize': real, xW: int, zW: int)
      requires Valid() && (!generated || (xW == xWidth && zW == zWidth))
      modifies this`cellSize, this`xWidth, this`zWidth
      ensures Valid() && cellSize == cellSize' && xWidth == xW && zWidth == zW
    {
      cellSize := cellSize';
      xWidth := xW;
      zWidth := zW;
    }

    /**
      Builds the mesh from the height map: on the first call allocates the
      buffers and fills the index buffer; on every call copies the heights,
      resets and accumulates the normals, and marks the mesh for upload.
     */
    method Generate(hmap: seq<real>)
      requires Valid() && xWidth >= 1 && zWidth >= 1 && |hmap| >= xWidth * zWidth
      modifies this`needSendGPU, this`generated, this`numIndices, this`heights, this`normals, this`indices
      modifies heights, normals, indices
      ensures Valid() && generated && needSendGPU
      ensures numIndices == NumIndices(xWidth, zWidth)
      ensures old(generated) ==>
                heights == old(heights) && normals == old(normals) && indices == old(indices) &&
                indices[..] == old(indices[..])
      ensures !old(generated) ==> fresh(heights) && fresh(normals) && fresh(indices)
      ensures heights[..] == hmap[..xWidth * zWidth]
      ensures normals[..] == NormalPass(xWidth, zWidth, heights[..], Zeros(xWidth * zWidth))
    {
      needSendGPU := false;
      if !generated {
        Allocate();
      }
      ResetVertices(hmap);
      AccumulateNormals();
      generated := true;
      needSendGPU := true;
    }

    /** The first generation: allocates the three buffers and fills the index buffer. */
    method Allocate()
      requires xWidth >= 1 && zWidth >= 1
      modifies this`numIndices, this`heights, this`normals, this`indices
      ensures Shaped() && Indexed() && fresh(heights) && fresh(normals) && fresh(indices)
    {
      numIndices := NumIndices(xWidth, zWidth);
      NumIndicesNonNegative(xWidth, zWidth);
      heights := new real[xWidth * zWidth];
      normals := new Vec3[xWidth * zWidth];
      indices := new int[numIndices];
      FillIndices();
    }

    /** The face loop: slot Slot(z, x) + j of every quad gets the quad's j-th vertex. */
    method FillIndices()
      requires xWidth >= 1 && zWidth >= 1
      requires numIndices == NumIndices(xWidth, zWidth) && indices.Length == numIndices
      modifies indices
      ensures forall k :: 0 <= k < numIndices ==> indices[k] == IndexAt(xWidth, k)
    {
      var z := 0;
      ghost var filled := 0;
      NumIndicesNonNegative(xWidth, zWidth);
      while z < zWidth - 1
        invariant 0 <= z <= zWidth - 1 && filled == Slot(xWidth, z, 0) && filled <= numIndices
        invariant forall k :: 0 <= k < filled ==> indices[k] == IndexAt(xWidth, k)
      {
        var x := 0;
        while x < xWidth - 1
          invariant 0 <= x <= xWidth - 1 && filled == Slot(xWidth, z, x) && filled <= numIndices
          invariant forall k :: 0 <= k < filled ==> indices[k] == IndexAt(xWidth, k)
        {
          SlotInRange(xWidth, zWidth, z, x);
          WriteQuad(z, x, filled);
          SlotNext(xWidth, z, x);
          filled := filled + 6;
          x := x + 1;
        }
        SlotRowNext(xWidth, z);
        z := z + 1;
      }
      SlotEnd(xWidth, zWidth);
    }

    /** One quad of the face loop: writes its six slots, given that every earlier slot is already filled. */
    method WriteQuad(z: int, x: int, ghost filled: int)
      requires 0 <= z < zWidth - 1 && 0 <= x < xWidth - 1 && filled == Slot(xWidth, z, x) && filled + 6 <= numIndices
      requires numIndices == NumIndices(xWidth, zWidth) && indices.Length == numIndices
      requires forall k :: 0 <= k < filled ==> indices[k] == IndexAt(xWidth, k)
      modifies indices
      ensures forall k :: 0 <= k < filled + 6 ==> indices[k] == IndexAt(xWidth, k)
    {
      var index := ((z * (xWidth - 1)) + x) * 6;
      SlotInRange(xWidth, zWidth, z, x);
      indices[index] := (z * xWidth) + x;
      indices[index + 1] := ((z + 1) * xWidth) + x;
      indices[index + 2] := ((z + 1) * xWidth) + x + 1;
      indices[index + 3] := (z * xWidth) + x;
      indices[index + 4] := ((z + 1) * xWidth) + x + 1;
      indices[index + 5] := (z * xWidth) + x + 1;
      forall k | 0 <= k < filled + 6
        ensures indices[k] == IndexAt(xWidth, k)
      {
        if k >= filled {
          SlotDecode(xWidth, z, x, k - filled);
        }
      }
    }

    /** The vertex loop: copies the heights and zeroes every normal. */
    method ResetVertices(hmap: seq<real>)
      requires xWidth >= 1 && zWidth >= 1 && |hmap| >= xWidth * zWidth
      requires heights.Length == xWidth * zWidth && normals.Length == xWidth * zWidth
      modifies heights, normals
      ensures heights[..] == hmap[..xWidth * zWidth]
      ensures normals[..] == Zeros(xWidth * zWidth)
    {
      var z := 0;
      ghost var done := 0;
      while z < zWidth
        invariant 0 <= z <= zWidth && done == Idx(xWidth, z, 0) && done <= xWidth * zWidth
        invariant forall i :: 0 <= i < done ==> heights[i] == hmap[i] && normals[i] == Zero
      {
        var x := 0;
        while x < xWidth
          invariant 0 <= x <= xWidth && done == Idx(xWidth, z, x) && done <= xWidth * zWidth
          invariant forall i :: 0 <= i < done ==> heights[i] == hmap[i] && normals[i] == Zero
        {
          var index := z * xWidth + x;
          IdxInRange(xWidth, zWidth, z, x);
          heights[index] := hmap[index];
          normals[index] := Zero;
          done := done + 1;
          x := x + 1;
        }
        IdxNextRow(xWidth, z);
        z := z + 1;
      }
      IdxEnd(xWidth, zWidth);
      assert heights[..] == hmap[..xWidth * zWidth];
    }

    /** The normal loop over the quads strictly inside the outer quad ring. */
    method AccumulateNormals()
      requires Shaped() && Indexed()
      modifies normals
      ensures normals[..] == NormalPass(xWidth, zWidth, heights[..], old(normals[..]))
    {
      ghost var ns0 := normals[..];
      var z := 1;
      while z < zWidth - 2
        invariant 1 <= z <= Span(zWidth - 2)
        invariant normals[..] == RowsBefore(xWidth, zWidth, heights[..], z, ns0)
      {
        AccumulateRow(z);
        z := z + 1;
      }
      assert z == Span(zWidth - 2);
    }

    /** One row of the normal loop: quads (z, 1) .. (z, xWidth - 3). */
    method AccumulateRow(z: int)
      requires Shaped() && Indexed() && 1 <= z < zWidth - 2
      modifies normals
      ensures normals[..] == RowQuads(xWidth, zWidth, heights[..], z, Span(xWidth - 2), old(normals[..]))
    {
      ghost var ns0 := normals[..];
      var x := 1;
      while x < xWidth - 2
        invariant 1 <= x <= Span(xWidth - 2)
        invariant normals[..] == RowQuads(xWidth, zWidth, heights[..], z, x, ns0)
      {
        AccumulateQuad(z, x, ns0);
        x := x + 1;
      }
      assert x == Span(xWidth - 2);
    }

    /** One quad of the normal loop: reads its corners from the index buffer and adds its face normals. */
    method AccumulateQuad(z: int, x: int, ghost ns0: seq<Vec3>)
      requires Shaped() && Indexed() && 1 <= z < zWidth - 2 && 1 <= x < xWidth - 2
      requires |ns0| == xWidth * zWidth && normals[..] == RowQuads(xWidth, zWidth, heights[..], z, x, ns0)
      modifies normals
      ensures normals[..] == RowQuads(xWidth, zWidth, heights[..], z, x + 1, ns0)
    {
      var in0, in1, in2, in3 := QuadCorners(z, x);
      var normal1, normal2 := FaceNormals(z, x);
      var normal3 := Add(normal1, normal2);

      normals[in0] := Add(normals[in0], normal3);
      normals[in1] := Add(normals[in1], normal1);
      normals[in2] := Add(normals[in2], normal3);
      normals[in3] := Add(normals[in3], normal2);
    }

    /** The corners of quad (z, x) as the index buffer lists them: slots 0, 1, 2 and 5 of the quad. */
    method QuadCorners(z: int, x: int) returns (in0: int, in1: int, in2: int, in3: int)
      requires Shaped() && Indexed() && QuadIn(xWidth, zWidth, z, x)
      ensures in0 == Vert(xWidth, zWidth, z, x) && in1 == Vert(xWidth, zWidth, z + 1, x)
      ensures in2 == Vert(xWidth, zWidth, z + 1, x + 1) && in3 == Vert(xWidth, zWidth, z, x + 1)
    {
      var index := ((z * (xWidth - 1)) + x) * 6;
      SlotInRange(xWidth, zWidth, z, x);
      SlotDecode(xWidth, z, x, 0);
      SlotDecode(xWidth, z, x, 1);
      SlotDecode(xWidth, z, x, 2);
      SlotDecode(xWidth, z, x, 5);
      in0 := indices[index];
      in1 := indices[index + 1];
      in2 := indices[index + 2];
      in3 := indices[index + 5];
    }

    /** The face normals of quad (z, x), from the heights of its corners. */
    method FaceNormals(z: int, x: int) returns (normal1: Vec3, normal2: Vec3)
      requires Shaped() && QuadIn(xWidth, zWidth, z, x)
      ensures QuadNormal(normal1, normal2) == QuadNormals(xWidth, zWidth, heights[..], z, x)
    {
      IdxInRange(xWidth, zWidth, z, x);
      IdxInRange(xWidth, zWidth, z + 1, x);
      IdxInRange(xWidth, zWidth, z + 1, x + 1);
      IdxInRange(xWidth, zWidth, z, x + 1);
      var v0 := Vec3(x as real, heights[z * xWidth + x], z as real);
      var v1 := Vec3(x as real, heights[(z + 1) * xWidth + x], (z + 1) as real);
      var v2 := Vec3((x + 1) as real, heights[(z + 1) * xWidth + x + 1], (z + 1) as real);
      var v3 := Vec3((x + 1) as real, heights[z * xWidth + x + 1], z as real);
      normal1 := Cross(Sub(v1, v0), Sub(v2, v0));
      normal2 := Cross(Sub(v2, v0), Sub(v3, v0));
    }

    /** The upload: creates the GPU buffers on the first call and clears the pending flag. */
    method SendGPU()
      requires Valid()
      modifies this`createdOnGPU, this`needSendGPU
      ensures Valid() && createdOnGPU && !needSendGPU
    {
      createdOnGPU := true;
      needSendGPU := false;
    }

    /** Releases the mesh: nothing generated, nothing pending, nothing on the GPU, no indices. */
    method Clean()
      modifies this`createdOnGPU, this`generated, this`needSendGPU, this`numIndices
      ensures Valid() && !createdOnGPU && !generated && !needSendGPU && numIndices == 0
    {
      createdOnGPU := false;
      generated := false;
      needSendGPU := false;
      numIndices := 0;
    }
  }
}
