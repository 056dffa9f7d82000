/**
 One frame of the lava lamp as text: a blank screen-sized grid, the metaball
 pass over it, and the rows joined into one string.
 */
module Render {
  import opened Grid
  import opened Blobs
  import opened Metaballs

  /**
   The text of one frame for a `width` x `height` screen. The text splits on
   line breaks into exactly the rows of the screen, each `width` cells long,
   each cell filled exactly where the blobs' summed influence reaches THRESHOLD
   and blank elsewhere.
   */
  method Draw(blobs: seq<Blob>, width: nat, height: nat, kernel: Kernel) returns (text: string)
    ensures height == 0 ==> text == ""
    ensures height >= 1 ==> |text| == height * width + height - 1
    ensures height >= 1 ==> multiset(text)[NEWLINE] == height - 1
    ensures height >= 1 ==> |Split(text)| == height
    ensures height >= 1 ==> forall i :: 0 <= i < height ==> |Split(text)[i]| == width
    ensures height >= 1 ==> forall i, j :: 0 <= i < height && 0 <= j < width ==>
      Split(text)[i][j] == (if Influence(blobs, j, i, kernel) >= THRESHOLD then FILL_CHAR else BASE_CHAR)
  {
    var grid := GenGrid(width, height);
    grid := Metaballise(grid, blobs, kernel);
    MetaballisedBlankGrid(width, height, blobs, kernel, grid);
    text := Join(grid);
    if height >= 1 {
      SplitJoin(grid);
      JoinLength(grid, width);
    }
  }
}
