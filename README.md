# gl4 geometry and texture generators, modelled in Dafny

This project models the integer part of the two procedural generators in the
gl4 OpenGL demo (`main.c`):

* `gen_torus` clamps its two subdivision counts to at least 3. It derives the
  vertex count `(usub+1)*(vsub+1)` and the index count `usub*vsub*6`, and
  allocates a vertex array and an index array. A nested loop then walks the
  row-major `(usub+1) x (vsub+1)` vertex grid. It stores one vertex per slot
  through an advancing pointer. For every cell below the seam row and left of
  the seam column it also stores six indices, which make two triangles.
* `gen_texture` allocates a `width*height*3` byte buffer and fills it row by
  row. Byte `c` of pixel `(i, j)` is `((i ^ j) << c) & 0xff`.

A vertex is modelled as its grid slot `GridVertex(i, j)`, not as its
floating-point position. The host heap is a small allocator model
(`Heap.Allocator`). Its ghost set `live` holds the buffers allocated and not
yet freed. Whether each `malloc` succeeds is a boolean input. C's `int`
arithmetic is unbounded here. The preconditions keep every signed `int` the
source computes within range, so nothing the model proves depends on signed
overflow. `CountsFit` covers the torus counts and their products. `ImageFits`
covers `width * height * 3`, and it also bounds both sizes by 2^29, so that
`x << 2` stays a C `int` for every pixel (`Texture.ShiftInRange`).

The texture bytes are integers (`Texture.Byte`, an `unsigned char`).
`Texture.Xor` is `i ^ j` on non-negative integers, computed bit by bit.
`Texture.LowByte` is the conversion to `unsigned char`; on a non-negative
value, `& 0xff` gives the same result.

The texture buffer `GenTexture` uploads is `TextureImage(width, height)`,
which depends only on the two sizes. So equal sizes always give
byte-identical images. The ring and tube parameters of a slot are given by
`SlotParams`, with the steps taken from the clamped counts (see Findings).

Modules: `CTypes` (C integer ranges, `UInt` for `unsigned int`), `RowMajor`
(flat position `i * stride + j` and its quotient/remainder facts), `Heap`,
`Torus` and `Texture`.

## Model

| member | source | states |
|---|---|---|
| Torus.Clamp | main.c:273-274 | the count used is at least 3 and at least the argument, and equals the argument or 3: counts below 3 become 3, larger ones are unchanged |
| Torus.VertexCount | main.c:276-279 | the vertex count is one past the flat position `usub * vverts + vsub` of the last slot |
| Torus.IndexCount | main.c:280-284 | the index count is six past the first index of the last cell `(usub-1, vsub-1)`, and 0 when there are no cells |
| Torus.GridVertices | main.c:299-303 | the grid list has exactly `vcount` entries; SlotStoredAt and StoredVertexIsSlot give each one |
| Torus.TorusIndices | main.c:305-313 | the index list has exactly `icount` entries; CellLayout and PositionInCell give each one |
| Torus.Mesh.GenTorus | main.c:264-318 | records `vcount == (usub+1)*(vsub+1)` and `icount == usub*vsub*6` of the clamped counts; returns 0 exactly when both allocations succeed, else -1; if the vertex allocation fails, `varr` is null and nothing is allocated; if the index allocation fails, the vertex array is freed, `varr` and `iarr` are null and the live set is unchanged; on success the mesh owns two fresh live arrays that hold exactly the grid vertices and the torus indices |
| Torus.EmitGrid | main.c:299-318 | the nested loop leaves the vertex and index pointers exactly at the ends of their arrays; the vertex array is the row-major grid and the index array is the closed-form index layout |
| Torus.EmitCell | main.c:305-313 | the six stores of one non-seam cell extend the correctly filled prefix of the index array by exactly six entries, and leave the rest of the array as it was |
| Torus.SlotStoredAt | main.c:300-303 | each slot `(i, j)` with `i <= usub` and `j <= vsub` is stored inside the array at position `i*vverts + j`, and reads back as `(i, j)` |
| Torus.StoredVertexIsSlot | main.c:300-303 | each stored position `k < vcount` is the grid slot `(k / vverts, k % vverts)`, which lies in the grid and maps back to `k` (the converse of SlotStoredAt) |
| Torus.CellLayout | main.c:305-313 | for `i < usub` and `j < vsub`, the six indices at offset `6*(i*vsub + j)` are `vnum, vnum+vverts+1, vnum+1, vnum, vnum+vverts, vnum+vverts+1` with `vnum = i*vverts + j`, all inside the index array |
| Torus.PositionInCell | main.c:305 | every index position belongs to a cell with `i < usub` and `j < vsub`: the seam row and seam column emit nothing |
| Torus.CornersInGrid | main.c:306-312 | every corner index of a non-seam cell is at most the cell's upper-right vertex and below `vcount` |
| Torus.IndicesInBounds | main.c:306-312 | every emitted index is below `vcount` |
| Torus.LastVertexIndexed | main.c:306-312 | the second index of the last cell is `(usub-1)*vverts + (vsub-1) + vverts + 1 == vcount - 1`, so the largest index is attained |
| Torus.ReadBackCorner | main.c:306-312 | decoding the index at `6*(i*vsub+j) + c` yields corner `c` of cell `(i, j)` in emission order |
| Torus.CellTriangles | main.c:306-312 | read back through the index array, the cell's triangles are `(i,j) (i+1,j+1) (i,j+1)` and `(i,j) (i+1,j) (i+1,j+1)`: they share one diagonal and together use the four corners |
| Torus.ConsistentWinding | main.c:306-312 | both triangles of every cell have orientation +1 in the grid plane: they are wound the same way and are not degenerate |
| Torus.DemoTorusCounts | main.c:119 | the program's own 32 x 12 torus has 429 vertices and 2304 indices, and its counts fit in a C `int` |
| Torus.SeamOpenAsWritten | main.c:268-274 | with the step taken before clamping, a count of 2 puts the last row (for `usub`) or the last column (for `vsub`) 1.5 turns after the first |
| Torus.ParamAsWritten | main.c:268-269 | the parameter of row (or column) `k`, with the step `1.0 / usub` (or `1.0 / vsub`) taken before clamping, times the unclamped count is `k` |
| Torus.AsWrittenAgreesUnclamped | main.c:268-269 | for a ring count of at least 3 the written and clamped steps give the same row parameter, and for a tube count of at least 3 the same column parameter |
| Torus.SlotParams | main.c:299-317 | with steps from the clamped counts, every grid slot has ring and tube parameters in [0, 1] |
| Torus.SeamCloses | main.c:299-317 | the last row is exactly one turn after the first and the last column exactly one turn after the first column; the other parameter matches |
| Heap.Allocator.Malloc | main.c:291 | a successful allocation returns a fresh array of the requested length and adds it to the live set; a failed one returns null and changes nothing |
| Heap.Allocator.Free | main.c:293 | freeing removes exactly that buffer from the live set; freeing null does nothing |
| Texture.TexelLayout | main.c:369-375 | for `i < height`, `j < width` and `c < 3`, byte `3*(i*width + j) + c` lies in the buffer and equals `((i ^ j) << c) & 0xff` |
| Texture.XorBits | main.c:371 | bit n of `i ^ j` is set exactly when bit n of `i` and bit n of `j` differ |
| Texture.Xor | main.c:371 | `i ^ j` is never more than `i + j` |
| Texture.XorBelow | main.c:371 | the XOR of two values below 2^k is below 2^k |
| Texture.ShiftInRange | main.c:371-374 | for every pixel of an image that satisfies `ImageFits`, `x = i ^ j` is at most `INT_MAX / 4`, so `x << 1` and `x << 2` do not overflow a C `int` |
| Texture.ChannelMeaning | main.c:371-374 | channel c of a pixel, the byte `(x << c) & 0xff` (for c = 0 the `unsigned char` conversion of `x`), has its low c bits zero and the low 8 - c bits of `x` above them |
| Texture.ChannelsAreShifts | main.c:372-374 | green is the low byte of twice red and blue is the low byte of four times red: red shifted left by one and two bits within a byte |
| Texture.TextureImage | main.c:364-376 | the image handed to the driver has exactly `width * height * 3` bytes; TexelLayout gives each byte |
| Texture.PatternSymmetric | main.c:371 | pixel `(i, j)` equals pixel `(j, i)`, and pixels on the diagonal are black |
| Texture.OnePixelImage | main.c:364-376 | a 1 x 1 texture is the single pixel `(0, 0, 0)` |
| Texture.StorePixel | main.c:371-374 | the three stores for one pixel extend the correctly filled prefix of the buffer by exactly three bytes, and leave the rest of the buffer as it was |
| Texture.FillPixels | main.c:367-376 | the pixel loop's pointer ends exactly at the buffer end, and the buffer is the whole image |
| Texture.GenTexture | main.c:358-387 | returns 0 exactly when allocation fails; otherwise returns the driver's texture name and uploads exactly the XOR image; the live set is unchanged on both paths, so the pixel buffer is freed |

## Left out

- Vertex positions, normals and texture coordinates (`torus_vertex`, main.c:237-261) and the float accumulators `u += du`, `v += dv` are not modelled. They are floating point. `SlotParams` gives the exact real parameters instead, and floating-point rounding of the accumulated sums is not modelled.
- Buffer-object, vertex-array and attribute setup (main.c:320-343), `draw_mesh`, the texture parameters, `glTexImage2D` and mipmap generation (main.c:378-383), and `cleanup` are left out. They are calls into the graphics driver. The image passed to `glTexImage2D` is the out-parameter `uploaded` of `GenTexture`, and the name from `glGenTextures` is the parameter `texName`.
- Shader loading and linking, per-frame rendering, camera input, debug logging, `main` and `init` are left out. They are file I/O, driver calls, float matrix math and windowing glue.
- The two `fprintf(stderr, ...)` messages on the allocation-failure paths of `gen_torus` (main.c:287, main.c:292) are left out. They are output only; the model keeps the return value -1 and the state those paths leave.
- The contents of a fresh `malloc` buffer are uninitialised in C. The model also starts from arbitrary contents, since a new Dafny array's elements are unspecified. Every element is written before it is read.
- Texture.GenTexture: requires `width >= 0` and `height >= 0`. This excludes two kinds of input. For the first kind, `width * height * 3` is negative, and converting it to `size_t` in `malloc` is platform behaviour this model does not capture. For the second kind, the byte count is still valid: both sizes are negative (`(-1, -2)` asks for 6 bytes), or one is zero and the other negative (`(0, -5)` asks for 0 bytes). For those inputs the pixel loops run zero times, no pixel is written, and the negative sizes go on to `glTexImage2D`, which rejects them. The function then returns the texture name. The model leaves these inputs out because what the driver does with a negative image size is outside it.
- Texture.GenTexture: requires `width` and `height` to be at most 2^29. The source accepts larger sizes when `width * height * 3` fits, but then `x << 2` can overflow a signed `int` for some pixel, which is undefined behaviour. An example is pixel `(0, 599999999)` of a 600000000 x 1 image.
- Texture.GenTexture: requires `texName != 0`, because `glGenTextures` never hands out texture name 0. This is an assumption about the driver, and it is what lets a result of 0 mean exactly that the allocation failed.
- Torus.Mesh.GenTorus: requires every C `int` count product to fit (`CountsFit`), because signed overflow in the source is undefined behaviour. The `size_t` byte-size products are assumed not to overflow.
- Torus.ParamAsWritten: a count of 0 is excluded, because `1.0 / 0` in float is infinity and has no real-number counterpart.

## Findings

| source | as written | input that shows it | evidently intended | confidence | as-written member | corrected member |
|---|---|---|---|---|---|---|
| main.c:268-274 | `du = 1.0 / usub` and `dv = 1.0 / vsub` are computed before `usub` and `vsub` are clamped to 3, so the parameter step does not match the number of rows it walks | `usub = 2`: four rows at u = 0, 0.5, 1, 1.5, so the last ring lies at 1.5 turns and the seam stays open (likewise `vsub = 2` for the columns) | the step is one over the clamped count, so the last row and column lie exactly one turn after the first | high; not executed | Torus.SeamOpenAsWritten | Torus.SeamCloses |
