/** The records the scanner passes around. Everything the image library computes
    (outline area, circularity, bounding box, mean colour, nesting) arrives here as
    a plain given value. */
module CubeTypes {

  /** One 8-bit colour channel; the mean colour is cast to unsigned 8-bit. */
  type Channel = x: int | 0 <= x < 256

  /** The mean colour of a sticker, in the image library's blue-green-red order. */
  datatype Bgr = Bgr(b: Channel, g: Channel, r: Channel)

  /** An axis-aligned bounding box in pixels: top-left corner, width and height. */
  datatype Rect = Rect(x: int, y: int, w: int, h: int)

  /** One traced outline of a frame, as measured by the image library.
      `firstChild` is the hierarchy's first-child entry: the index of the first
      outline nested directly inside this one, or -1 when there is none.
      `bounds` and `meanColor` are what the library reports for this outline
      (its bounding box and the mean colour inside it, inset by 2 pixels). */
  datatype Contour = Contour(
    area: real,
    squareness: real,
    firstChild: int,
    bounds: Rect,
    meanColor: Bgr)

  /** A candidate sticker: the bounding box of a square outline and its colour. */
  datatype Square = Square(bounds: Rect, avgColor: Bgr)

  /** A square nobody looks at; only used as the witness of `Face`. */
  const Blank := Square(Rect(0, 0, 0, 0), Bgr(0, 0, 0))

  /** One scanned side of the cube: exactly nine squares, in row-major order. */
  type Face = s: seq<Square> | |s| == 9 witness [Blank, Blank, Blank, Blank, Blank, Blank, Blank, Blank, Blank]
}
