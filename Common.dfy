/** Values shared by every stage of the wallpaper pipeline: bytes, the JavaScript
    notion of a value that may be missing, and the ways a stage can settle. */
module Common {

  /** One byte of a downloaded or re-encoded image. */
  newtype byte = x: int | 0 <= x < 256

  /** A JavaScript value that may be `undefined` (or any other falsy value). */
  datatype Option<+T> = None | Some(value: T)

  /** A synchronous computation that either returns or throws. */
  datatype Result<+T> = Ok(value: T) | Err(error: Error)

  /** How the promise returned by an asynchronous stage ends: it resolves, it
      rejects, or it never settles (an exception thrown outside the promise, or a
      rejection of an inner promise that nobody handles). */
  datatype Settlement<+T> = Resolved(value: T) | Rejected(error: Error) | Unsettled

  /** The failures the pipeline can observe. */
  datatype Error =
    | NoBingJson          // adapt_image_meta: 'no bing json provided'
    | NoImageMeta         // download_image: 'no image meta provided'
    | ImageAlreadyThere   // download_image: 'image already there'
    | TypeError           // JavaScript TypeError: property of undefined, non-string path
    | NetworkError        // https request failure
    | RenderError         // Jimp could not load, decode or write
    | ExternalToolError   // osascript failed or could not be spawned
    | FilesystemError     // fs.copyFile failed (missing source, permission)
}
