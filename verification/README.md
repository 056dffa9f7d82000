# Lava lamp: metaball simulation and text frame

A model of the simulation and drawing pipeline of the `lava-lamp` terminal
program (`src/main.rs`). At start-up the program creates one blob per
DENSITY (300) cells of the terminal, each at a random position on the screen
with a random velocity of at most VELOCITY (2) cells per frame on each axis.
On every frame it moves each blob by its velocity, builds a blank grid the
size of the terminal, fills every cell whose summed inverse-distance
influence from all blobs reaches THRESHOLD (0.5) with `■`, and joins the
rows into one string with line breaks.

Modules:

- `Grid` (`grid.dfy`): the character grid, the blank grid `GenGrid`, the
  row joiner `Join`, and `Split`, which splits text on line breaks the way a
  string split does (the empty text splits into one empty piece). `Split` is
  the inverse `Join` is proved against.
- `Blobs` (`blobs.dfy`): `Blob`, the blob count `BlobCount`, blob creation
  `GenBlobs` (a loop appending to a sequence), one frame of motion `Tick`,
  and `Transform`, which moves the blobs of an array in place.
- `Metaballs` (`metaballs.dfy`): the summed influence `Influence`, the
  per-cell rule `Cell`, the relation `Metaballised` between a grid and its
  image under the metaball pass, and the nested-loop method `Metaballise`
  that computes it.
- `Render` (`render.dfy`): `Draw`, one frame as text.

Modelling decisions:

- The per-blob influence `1 / sqrt(dx² + dy²)` is a parameter of type
  `Kernel = (real, real) -> real`, applied to the displacement
  `(column - blob.x, row - blob.y)`. Nothing proved depends on its values,
  except where a lemma asks for a kernel that is never negative.
- Coordinates and velocities are `real` rather than `f32`.
- The terminal width and height are natural numbers. The program reads them
  as 16-bit cell counts, so converting them to a grid size loses nothing.
- The random generator is replaced by a sequence of `Sample`s. These are the
  values it would draw for each blob, in the ranges it promises: [0, 1) for
  the two position fractions and [-1, 1) for the two velocity components.
- The blob count is the area divided by DENSITY, truncated towards zero.
  This is proved equal to integer division of the area by 300.
- The text of a frame is a sequence of characters. Its length counts
  characters, not UTF-8 bytes.

The program has no wall reflection, velocity jitter, falling mode or
colour mapping: the whole frame is drawn in one colour. Blobs move in straight lines, and the blob count is linear in the
area.

## Model

| member | source | states |
|---|---|---|
| `Grid.GenGrid` | src/main.rs:88-90 | the new grid has exactly `height` rows of exactly `width` cells, and every cell is the blank character |
| `Grid.Split` | src/main.rs:75-78 | splitting text on line breaks gives one piece more than there are line breaks, and no piece holds a line break |
| `Grid.SplitPrefix` | src/main.rs:75-78 | a leading piece without line breaks is glued to the first piece of what follows it |
| `Grid.SplitJoin` | src/main.rs:75-78 | splitting the joined rows on line breaks gives back exactly the rows, when there is at least one row and no row holds a line break |
| `Grid.JoinPrepend` | src/main.rs:75-78 | text added in front of the first row ends up in front of the joined text |
| `Grid.JoinSplit` | src/main.rs:75-78 | joining the pieces of any text with line breaks gives back that text |
| `Grid.JoinLength` | src/main.rs:75-78 | `H >= 1` rows of `W` cells join into `H*W + H - 1` characters |
| `Grid.JoinNewlineCount` | src/main.rs:75-78 | `H >= 1` rows without line breaks join into text with exactly `H - 1` line breaks |
| `Blobs.BlobCountIsQuotient` | src/main.rs:93 | the area over DENSITY, truncated, equals the integer quotient of the area by 300 |
| `Blobs.BlobCountNeedsArea` | src/main.rs:93-97 | a screen with at least one blob has at least 300 cells and neither side is zero |
| `Blobs.FromSampleInBounds` | src/main.rs:98-101 | a blob built from in-range random values lies in `[0, width) x [0, height)`, and each velocity component lies in `[-VELOCITY, VELOCITY)` |
| `Blobs.GenBlobs` | src/main.rs:92-105 | exactly `BlobCount(width, height)` blobs are created, the k-th from the k-th random sample, and every one is on the screen with each velocity component in `[-VELOCITY, VELOCITY)` |
| `Blobs.TicksTravel` | src/main.rs:126-132 | after `n` frames a blob keeps its velocity and has moved `n` times that velocity on each axis |
| `Blobs.Transform` | src/main.rs:126-132 | every blob of the array moves by its own velocity, and its velocity and the array length do not change |
| `Metaballs.CellInfluence` | src/main.rs:111-117 | the loop over the blobs returns the sum of one kernel term per blob for the cell |
| `Metaballs.Metaballise` | src/main.rs:107-124 | the result has the grid's row count and row lengths; a cell is the fill character where the summed influence reaches THRESHOLD and the input cell otherwise |
| `Metaballs.MetaballisedUnique` | src/main.rs:107-124 | the metaball pass has exactly one possible result for a grid, blob list and kernel |
| `Metaballs.NoBlobsNoChange` | src/main.rs:111-120 | with no blobs, every influence is 0, below THRESHOLD, so the grid comes back unchanged |
| `Metaballs.MetaballiseIdempotent` | src/main.rs:118-120 | running the pass again on its own result changes nothing |
| `Metaballs.MetaballisedBlankGrid` | src/main.rs:72-73 | on a blank `width` x `height` grid, the pass gives a `width` x `height` grid of fill and blank cells, with no line breaks |
| `Metaballs.InfluenceNonNegative` | src/main.rs:112-117 | with a kernel that is never negative, the summed influence is never negative |
| `Metaballs.InfluenceConcat` | src/main.rs:112-117 | the influence of two blob lists together is the sum of their influences |
| `Metaballs.MoreBlobsFillMore` | src/main.rs:111-120 | with a kernel that is never negative, adding blobs never turns a filled cell back to blank |
| `Render.Draw` | src/main.rs:71-81 | with no rows the text is empty. Otherwise it has `H*W + H - 1` characters and `H - 1` line breaks, and it splits into `H` rows of `W` cells. Each cell is the fill character exactly where the influence reaches THRESHOLD, and blank otherwise |

## Left out

- The main loop (src/main.rs:32-69): the alternate screen, raw mode, widget rendering and polling for the `q` key are terminal I/O.
- `get_dimensions` (src/main.rs:83-86): querying the terminal size is an environment call. The width and height are parameters.
- The random generator: its draws are the `samples` parameter of `GenBlobs`.
- The inverse-distance kernel's arithmetic (`powf`, `sqrt`, `recip`), its single-precision rounding, and the infinite value at zero distance (which fills the cell). The kernel is an arbitrary function.
- Metaballs.CellInfluence: the sum of the kernel terms is exact here. The program accumulates it in single precision, so a cell whose total lies within rounding of THRESHOLD may be classified differently by the program.
- Blobs.TicksTravel: the closed form `x + n * v` holds over reals only. The program adds the velocity in single precision every frame, and those repeated additions drift from it.
- Blobs.GenBlobs: the bound `x < width` (and `y < height`) is proved over reals. It also holds in single precision: a fraction below 1 times an integer width up to 2^24 rounds to a value below the width, and terminal sizes stay below 2^16.
- Blobs.BlobCountIsQuotient: the area and the quotient are exact here. In single precision, an area above 2^24 cells is rounded before the division.
- Blobs.Transform: the program moves the blob vector into the function and returns it. The model updates an array in place, which is what the loop does to the vector.
- Metaballs.Metaballise: the program clones the grid and writes into the clone. The model takes the grid as a value and returns the updated copy.
