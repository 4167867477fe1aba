/** Where the copyright caption is printed on the 1920-pixel-wide wallpaper. */
module Caption {

  const CanvasWidth: int := 1920
  const RightMargin: int := 50
  const TopMargin: int := 50
  /** The x the coordinates object starts with, before it is overwritten. */
  const InitialX: int := 100

  datatype Coords = Coords(x: int, y: int)

  /** The caption position for a measured text width: the text ends 50 pixels
      from the right edge and starts 50 pixels from the top. No clamping. */
  function CaptionPosition(textWidth: int): (c: Coords)
    ensures c.x + textWidth == CanvasWidth - RightMargin
    ensures c.y == TopMargin
  {
    Coords(CanvasWidth - RightMargin - textWidth, TopMargin)
  }

  /** get_text_xy_coord, with the width that Jimp.measureText would return given
      as a parameter: build {x: 100, y: 50}, then overwrite x. */
  method GetTextXYCoord(textWidth: int) returns (coords: Coords)
    ensures coords == CaptionPosition(textWidth)
  {
    coords := Coords(InitialX, TopMargin);
    coords := coords.(x := CanvasWidth - RightMargin - textWidth);
  }

  /** The position moves left as the text widens, and is not clamped: an empty
      text starts at 1870, and a text wider than 1870 pixels starts off-canvas. */
  lemma CaptionPlacement(w: int, w': int)
    ensures CaptionPosition(0) == Coords(1870, 50)
    ensures CaptionPosition(w).x < 0 <==> w > 1870
    ensures w < w' ==> CaptionPosition(w').x < CaptionPosition(w).x
    ensures CaptionPosition(w).x - CaptionPosition(w').x == w' - w
  {
  }
}
