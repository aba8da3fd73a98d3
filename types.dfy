/** Values shared by the folder scan and the strip composer: pixels, decoded
    images, rectangles, directory entries and the ways a run can fail. */
module Types {

  newtype byte = x: int | 0 <= x < 256

  /** One RGBA pixel as the canvas stores it (colour-model conversion is not modelled). */
  datatype Color = Color(r: byte, g: byte, b: byte, a: byte)

  /** The zero pixel a freshly allocated RGBA canvas holds everywhere. */
  const Transparent: Color := Color(0, 0, 0, 0)

  /** A decoded image whose bounds start at the origin; `rows[y][x]` is the pixel at (x, y). */
  datatype Bitmap = Bitmap(width: nat, height: nat, rows: seq<seq<Color>>)
  {
    predicate Valid() {
      |rows| == height && forall y :: 0 <= y < |rows| ==> |rows[y]| == width
    }
  }

  /** What the PNG decoder hands back: a bitmap whose pixel grid matches its bounds. */
  type Image = b: Bitmap | b.Valid() witness Bitmap(0, 0, [])

  /** An `image.Rectangle`: the points (x, y) with minX <= x < maxX and minY <= y < maxY. */
  datatype Rect = Rect(minX: int, minY: int, maxX: int, maxY: int)
  {
    predicate Contains(x: int, y: int) {
      minX <= x < maxX && minY <= y < maxY
    }
  }

  /** One entry of a directory listing. */
  datatype Entry = Entry(name: string, isDir: bool)

  /** Why a run stops without writing a spritesheet. */
  datatype Failure =
    | ListFailed(reason: string)    // the folder could not be listed
    | DecodeFailed(reason: string)  // an image could not be opened or decoded
    | NoImages                      // the folder holds no PNG file: the source indexes images[0] and panics

  datatype Option<T> = None | Some(value: T)

  datatype Result<T> = Ok(value: T) | Err(error: Failure)
}
