# Bing wallpaper pipeline: a Dafny model of `index.js`

`index.js` fetches Bing's image-of-the-day metadata, turns the first entry into an
image record (asset URL, file name, local path, copyright), downloads the image
into the user's wallpaper directory, prints the copyright caption onto it, sets it
as the desktop picture and copies it to the lock-screen image. This project models
the deterministic part of that chain and proves what it promises:

- `Meta.dfy`: the fixed constants, the asset URL (`get_fhd_image_url`) and the
  adapter (`adapt_image_meta`), with the file name as POSIX `path.basename` of the
  URL (`Paths.dfy`).
- `Download.dfy`: the guard of `download_image` and the chunk-by-chunk write of
  the response body. The filesystem is a map from each existing path to its bytes,
  held by the class `FileSystem`, whose method `DownloadImage` is proved equal to
  the specification function `DownloadSpec`.
- `Caption.dfy`: `get_text_xy_coord`, with the measured text width as a parameter.
- `Pipeline.dfy`: `main` as a fold (`Chain`) over six stages that each resolve,
  reject or never settle, recording a trace of what ran on what input and whether
  `handle_error` ran.

JavaScript's missing values are `Option` values. A template literal renders an
absent `urlbase` as `"undefined"`. Everything outside the program is a parameter
of the environment `Env`: the user name, how the metadata request settled,
whether the new image file can be opened for writing, the image response, what
Jimp does, whether `osascript` succeeds, and whether the copy
to the lock-screen path is permitted.

Five behaviours of `index.js` that the model follows:
- `adapt_image_meta` throws a `TypeError` for a document whose `images` array is
  missing or empty, because `images[0]` or `path.basename(undefined)` fails. It
  rejects with its own 'no bing json' error only for a falsy value (null,
  undefined or the empty string).
- `get_bing_json` calls `JSON.parse` inside the response's `end` listener. A
  malformed body makes it throw there, which is an uncaught exception rather
  than a rejection, so the fetch stage may be `Unsettled`.
- `download_image` rejects a destination that already exists.
- `fs.createWriteStream` opens the new file asynchronously and `index.js` puts no
  'error' listener on the stream. When the file cannot be opened (for example,
  when the wallpaper directory does not exist), the process ends on the
  unhandled error: no file is created and `handle_error` never runs.
- `add_description_to_image` hands `image.copyright` to `Jimp.measureText` and
  `print`, which read its characters. For an entry without a `copyright` they
  throw inside the inner handler, which has no rejection path, so the caption
  stage never settles, as it does when the font or the image fails to load.

## Model

| member | source | states |
|---|---|---|
| Meta.FhdImageUrl | index.js:35-44 | no URL exactly when the entry is missing; otherwise the URL is "https://www.bing.com", then the rendered url base, then "_1920x1080.jpg" |
| Meta.FhdImageUrlInjective | index.js:39-43 | `TemplateText` renders the url base into the URL without loss: two entries get the same URL exactly when their url bases render the same |
| Meta.AdaptImageMeta | index.js:54-71 | no document gives the 'no bing json' error; a document without a first image gives a TypeError; otherwise the record's url is the asset URL of the first entry, file_name is its basename, physical_path is "/Users/<user>/Pictures/BingWallpapers/" + file_name, and copyright is passed through |
| Meta.AdaptedNames | index.js:59-65 | of the record `AdaptImageMeta` returns: file_name is the last '/'-separated segment of the URL (slash-free, a suffix of the URL preceded by '/', non-empty, ending in "_1920x1080.jpg" and ".jpg"); physical_path lies in the wallpaper directory `WallDir` ("/Users/<user>/Pictures/BingWallpapers") and its basename is file_name |
| Meta.DerivedNames | index.js:14-15 | the same facts for any record named the way the adapter names it |
| Meta.FileNameOfUrl | index.js:60 | the basename of an asset URL is the last segment of host plus url base, followed by "_1920x1080.jpg" |
| Meta.HostHasSlash | index.js:39 | the host holds a '/', so the file name is strictly shorter than the URL |
| Paths.LastSlash | index.js:60 | the index of the last '/' among the first n characters, or -1: every character after it is not '/' |
| Paths.TrimmedLength | index.js:60 | the length left after dropping the trailing slashes: only slashes follow it, and the character before it is not '/' |
| Paths.AfterLastSlash | index.js:60 | the result is the longest slash-free suffix: it holds no '/', is a suffix, and is preceded by '/' when shorter than the input |
| Paths.TrimTrailingSlashes | index.js:60 | the result is a prefix, only slashes were removed, and it does not end in '/' |
| Paths.Basename | index.js:60 | `path.basename` returns the whole last segment of the path with its trailing slashes trimmed: slash-free, a suffix, and preceded by '/' when shorter |
| Paths.BasenameOfUnslashed | index.js:60 | for a path not ending in '/', the basename is the text after the last '/' |
| Paths.AfterLastSlashAppend | index.js:60 | appending slash-free text extends the last segment by exactly that text |
| Paths.BasenameOfJoin | index.js:65 | the basename of dir + "/" + name is name, for a non-empty slash-free name |
| Download.ConcatLength | index.js:84-91 | `Concat`, the file after writing the chunks in order, is exactly as long as the response body, summed chunk by chunk |
| Download.TotalLengthSnoc | index.js:85-87 | one more chunk adds its length to the body length |
| Download.DownloadGuard | index.js:73-97 | `DownloadSpec`: a missing record or an existing physical path is rejected with its own error and leaves the filesystem as it was; past the guard the filesystem changes exactly when the new file can be opened |
| Download.DownloadCreatesOnlyPhysicalPath | index.js:78-95 | `DownloadSpec` past the guard: a file that cannot be opened changes nothing and the download never settles; otherwise exactly one file is created, at physical_path, and other paths keep their contents; the download succeeds exactly when the body arrives; a request error leaves an empty file; otherwise the file is as long as the body |
| Download.DownloadTwice | index.js:78-81 | the first download creates the file exactly when it can be opened, and downloading the same record again after that is rejected as already there and changes nothing |
| Download.FileSystem.DownloadImage | index.js:73-97 | the guard, createWriteStream and the loop over 'data' chunks leave exactly the filesystem and result of `DownloadSpec` |
| Download.FileSystem.constructor | index.js:78 | the filesystem starts with the given existing paths |
| Caption.CaptionPosition | index.js:99-108 | the caption's right end lands 50 pixels from the right edge of the 1920-pixel canvas, and y is 50 |
| Caption.GetTextXYCoord | index.js:99-109 | building {x: 100, y: 50} and overwriting x gives the caption position |
| Caption.CaptionPlacement | index.js:106 | width 0 gives (1870, 50); x is negative exactly when the width exceeds 1870 (no clamping); x falls by exactly the growth in width |
| Pipeline.ChainOrder | index.js:166-173 | `Chain`: stages run in chain order; the first gets the chain's input and each later one gets what its predecessor resolved with, and runs only if it resolved |
| Pipeline.ChainFailFast | index.js:166-173 | `Chain`: handle_error runs at most once, as the last event, on the error of the stage just before it; a run is handled exactly when it ends in handle_error, and stalls exactly when its last stage never settled |
| Pipeline.ChainCompletes | index.js:166-172 | `Chain` completes exactly when every stage ran and resolved, and it yields the last stage's value |
| Pipeline.ChainHead | index.js:167-173 | a resolving stage hands its value to the rest of the chain; a stage that does not resolve ends the run without completion |
| Pipeline.ChainStuckFrom | index.js:166-173 | if no chain from some stage on can complete, whatever it receives, then the whole chain cannot complete |
| Pipeline.MainChainCompletes | index.js:166-173 | whatever the stages do, when each of main's six stages resolves in turn the run records the six of them in order, each on its predecessor's value, and completes with the last value |
| Pipeline.MainChainStopsAtCaption | index.js:166-173 | whatever the stages do, when the first three resolve and the caption stage rejects, the run ends with handle_error on that error; when the caption stage never settles, the run stalls there |
| Pipeline.AdaptOnly | index.js:54-71 | `AdaptStep`: the adapter stage resolves only with the record that adapt_image_meta builds from its input |
| Pipeline.DownloadOnly | index.js:73-97 | `DownloadStep`: the download stage resolves only when the destination is new, the file opens and the body arrives, and then with its input and the body in the new file |
| Pipeline.CaptionOnly | index.js:111-131 | `CaptionStep`: the caption stage resolves only when the font loads, the image decodes and the write succeeds, and then with its input, which is a record with a copyright |
| Pipeline.CaptionStalls | index.js:114-129 | `Stall`: a font that fails to load, an image that fails to decode or a record without a copyright leaves the caption stage unsettled as written, and rejects it when corrected |
| Pipeline.DesktopOnly | index.js:141-148 | `DesktopStep`: the desktop stage resolves only when osascript succeeds, and then with its input |
| Pipeline.LoginOnly | index.js:151-160 | `LoginStep` on `LoginArgument`: the corrected login stage resolves on a record only when the copy is permitted |
| Pipeline.LoginRejectsRecord | index.js:151-157 | `LoginStep` on `LoginArgument` as written: the login stage rejects a record with a TypeError and leaves the filesystem alone |
| Pipeline.LastThreeOnlyIf | index.js:170-172 | the corrected chain from the caption stage on completes only when the record has a copyright, the font loads, the image decodes, both writes succeed and osascript succeeds |
| Pipeline.MainCompletes | index.js:166-173 | `RunMain`, corrected, with a record that has a copyright and every stage succeeding runs the six stages once each, in order, each on the previous output; the wallpaper and the lock screen then hold the captioned image |
| Pipeline.MainCompletesOnlyIf | index.js:166-173 | corrected `RunMain` completes only if the metadata arrived and adapted to a record with a copyright, the destination was new, the file opened, the body arrived, and every later stage succeeded |
| Pipeline.AdaptRejects | index.js:54-58 | `AsDoc`, `AdaptStep`: null, undefined and "" are rejected with the 'no bing json' error, any other value that is not a document with a TypeError, and a document gets through exactly when it has a first image |
| Pipeline.DownloadRejects | index.js:73-81 | `DownloadStep`: a falsy value is rejected as no image meta, any other value that is not a record with a TypeError, and neither writes anything |
| Pipeline.CaptionResolves | index.js:117-126 | `CaptionStep`: when Jimp succeeds on a record with a copyright, the file holds the old bytes printed with that copyright at `CaptionPosition` of the measured width, and the stage resolves with the record |
| Pipeline.DesktopResolves | index.js:141-148 | `DesktopStep`: a value other than null or undefined resolves unchanged when osascript succeeds |
| Pipeline.LoginCopies | index.js:151-158 | corrected `LoginStep`: the record's physical path is copied to the lock-screen path and the stage resolves with that path |
| Pipeline.DownloadStalls | index.js:78-81 | `DownloadStep`: a new file that cannot be opened leaves the stage unsettled and the filesystem unchanged |
| Pipeline.MainChainStopsAtDownload | index.js:166-173 | whatever the stages do, when the fetch and the adapter resolve and the download stage never settles, the run stalls there with three events |
| Pipeline.OpenFailureStalls | index.js:78-81 | when the wallpaper directory cannot take the new file, main stops at the download stage, writes nothing, and handle_error never runs, as written and corrected |
| Pipeline.AsWrittenFromCaption | index.js:120-157 | as written, the chain from the caption stage on never completes, because the record reaches fs.copyFile as its source |
| Pipeline.MainAsWrittenNeverCompletes | index.js:146-157 | as written, main never completes, whatever the environment does |
| Pipeline.CaptionFailureStallsAsWritten | index.js:114-129 | as written, a font that fails to load, an image that fails to decode or a record without a copyright leaves the caption stage unsettled, and handle_error never runs |
| Pipeline.CaptionFailureRejectsCorrected | index.js:111-131 | corrected, the same failure rejects with a render error; the run goes straight to handle_error, skips the later stages, and leaves the downloaded file as it was |

## Left out

- The HTTPS requests, the response events and the network itself (index.js:17-33, 84-95). The metadata request is given as a settled value. The image response is either a request error or the list of its 'data' chunks. An error raised on the response after some chunks have arrived is not modelled.
- `JSON.parse` (index.js:26). The parsed value is null, a document, or a string. `false`, numbers and arrays at the top level are not modelled. A document is the datatype `Doc`: `images` is absent or a sequence of entries, and an entry's `urlbase` and `copyright` are strings or absent. Other JSON types are not modelled: an `images` that is a string or an object, entries that are `null` or not objects (a `null` first entry would make index.js:60 throw a TypeError), and non-string fields.
- Jimp's font loading, `measureText`, printing and re-encoding (index.js:105, 111-131). These are parameters of `CaptionEnv`: whether the font loads, whether the image decodes, the measured width, the printed image as a function of the old bytes, the position and the text, and whether the write succeeds. A failed write leaves the file as it was in the model. Only a missing copyright is modelled as a text Jimp cannot measure; any string is measured and printed.
- The `osascript` command (index.js:133-149). Its text is not modelled, and its exit status is a boolean. For a value that is not a record, other than null or undefined, the command would name the path "undefined"; the model only asks whether it succeeds.
- `fs.copyFile` (index.js:151-160) is modelled as a map update. Permission failures are a boolean. Copying a file onto itself is not singled out.
- `os.userInfo()` (index.js:10): the user name is a parameter.
- Console logging. The process exit status is also left out: main never calls an exit routine, so the process ends normally after handle_error too.
- The scheduling of promise callbacks and the event loop. Only the order of the stages, what each receives, and where the chain stops are modelled.
- `path.basename` is the POSIX variant only, with no suffix argument.
- Only `index.js` is modelled.
- DownloadSpec: the stage resolves on 'end' with the file holding the whole body. index.js:89-90 calls `file.end()` and resolves at once, without waiting for the stream's 'finish' event, so the last bytes may still be in flight when the caption stage reads the file (index.js:117). The model does not capture that race.
- DownloadSpec: whether createWriteStream can open the new file is a boolean of the environment (`Env.createOk`). The model does not say why an open fails (missing directory, permissions).

## Findings

| source | as written | input that shows it | evidently intended | confidence | as-written member | corrected member |
|---|---|---|---|---|---|---|
| index.js:146, 154 | `set_desktop_background` resolves with the image record. `set_login_screen_background` then passes that record to `fs.copyFile` as the source path, which throws a TypeError (ERR_INVALID_ARG_TYPE) | any run in which the first five stages succeed | copy `image.physical_path` to the lock-screen path | high, not executed | Pipeline.MainAsWrittenNeverCompletes | Pipeline.MainCompletes |
| index.js:114-129 | `Jimp.loadFont(...)` and `Jimp.read(...)` have `then` handlers but no rejection handlers, so the stage's promise never settles and `main`'s `catch` never sees the failure (on Node versions that end the process on an unhandled rejection, `handle_error` is skipped just the same) | a downloaded file that Jimp cannot decode, a font that fails to load, or an entry without a `copyright` | reject, so that `handle_error` logs the failure | high, not executed | Pipeline.CaptionFailureStallsAsWritten | Pipeline.CaptionFailureRejectsCorrected |
