# APOD daily fetch — a verified model

The script `etl_apod.py` fetches NASA's Astronomy Picture of the Day record,
checks it, classifies its media, and saves the day as `<date>.md` (front
matter plus explanation) and, when there is an image to fetch, `<date>.jpg`,
skipping any day whose markdown file already exists. This project models
that decision logic in Dafny and proves what it promises:

- `Media` — `get_media_info`: which record URL is the image and which the
  video, for images, videos and any other media type.
- `Markdown` — the markdown block: the sequence of `md_file.write` calls as
  a list of `Piece` values, each with its exact text, and the file contents
  as their concatenation.
- `Storage` — `save_image_and_markdown` over an abstract output directory
  (`map` from file name to contents) as a class `ApodDir` whose method
  performs the writes; the pure `SavePlan` says which writes happen, in
  which order, and `Apply` what the directory holds afterwards. A ghost
  `history` records the order of the writes.
- `Pipeline` — `main`: the API-key check, the one request, the loop over
  the required fields, classification and persist, with the exit status.

The HTTP exchanges are parameters: the APOD response is a `Response`
(`Received(record)` or `RequestFailed`), and the image download is a
function `server` from URL to `Downloaded(bytes)` or `DownloadFailed`, so
every outcome of the network is covered. The environment variable and the
`--date` argument are parameters too. Python truthiness of an optional
string (`None` and `""` are false) is `Record.Truthy`.

Three behaviours of the code are worth calling out: the skip tests only
`<date>.md`, although the comment beside it speaks of both files
(`etl_apod.py:60-61`); the field loop reports only the first absent field;
and `media_type` may be any string, with every value other than `image` and
`video` handled by the same fallback branch.

## Model

| member | source | states |
|---|---|---|
| `Record.Get` | etl_apod.py:127 | `dict.get`: Some exactly when the key is present, holding its value |
| `Record.Truthy` | etl_apod.py:71-87 | the `if` tests on `video_url`, `copyright_info` and `image_url`: None and the empty string are false, every other string true |
| `Media.Classify` | etl_apod.py:29-50 | `type` is always the record's `media_type`; an image with `url` has that URL as image and no video; a video has `url` (if present) as video and `thumbnail_url` (if present) as image; any other type, and an image without `url`, has no image and `url` (if present) as video; no input is rejected |
| `Media.ClassifyUrlsComeFromRecord` | etl_apod.py:38-48 | every reported URL is copied from the record: the video always from `url`, the image from `url` for images and from `thumbnail_url` for videos |
| `Media.ClassifyBothOnlyForVideo` | etl_apod.py:38-48 | only a video can have both an image and a video URL; only images and videos ever have an image URL |
| `Markdown.Text` | etl_apod.py:67-82 | the exact f-string each write emits; its meaning for the file is proved by `TextEndsWithNewline` and the `Render` lemmas |
| `Markdown.TextEndsWithNewline` | etl_apod.py:67-82 | every write ends in a newline, so the file is whole lines |
| `Markdown.Pieces` | etl_apod.py:66-82 | the document has 6 to 10 writes and always starts with the `---`, title, date and media-type lines |
| `Markdown.PiecesInStatementOrder` | etl_apod.py:66-82 | the writes follow the statement order of the block, each kind at most once: front matter, closing `---`, body, video link, image embed |
| `Markdown.PiecesConditionalLines` | etl_apod.py:71-82 | the `video_url` line and the `[View Video]` link appear exactly when `video_url` is truthy and carry its value; the `copyright` line exactly when copyright is truthy; the `![APOD](<date>.jpg)` embed exactly when `image_url` is truthy; the closing marker and the explanation always |
| `Markdown.VideoLinkBeforeImage` | etl_apod.py:78-82 | with both URLs truthy the video link is written before the image embed |
| `Markdown.ConcatAppend` | etl_apod.py:66-82 | the file text of consecutive writes is the concatenation of their texts |
| `Markdown.Render` | etl_apod.py:66-82 | the text of `<date>.md`: the concatenation of the writes; its layout is fixed by `RenderParts`, `RenderStartsWithHeader`, `RenderPlain` and `RenderFull` |
| `Markdown.RenderParts` | etl_apod.py:66-82 | the file is the fixed header, the optional front-matter lines, `---\n\n`, the explanation and newline, then the optional links |
| `Markdown.RenderStartsWithHeader` | etl_apod.py:67-70 | every file begins with `---\n`, `title: "<title>"\n`, `date: "<date>"\n`, `media_type: "<type>"\n` |
| `Markdown.RenderPlain` | etl_apod.py:66-76 | with no truthy video URL, copyright or image URL the file is exactly the header, `---\n\n` and `<explanation>\n` |
| `Markdown.RenderFull` | etl_apod.py:66-82 | with all three truthy the file is exactly the ten writes in statement order |
| `Storage.MarkdownPath` | etl_apod.py:58 | the markdown file name is the date string followed by `.md` |
| `Storage.ImagePath` | etl_apod.py:57 | the image file name is the date string followed by `.jpg` |
| `Storage.MarkdownPathIsNotImagePath` | etl_apod.py:57-58 | a `.md` name is never a `.jpg` name, for any two dates |
| `Storage.MarkdownPathInjective` | etl_apod.py:58 | different dates have different markdown files |
| `Storage.SavePlan` | etl_apod.py:60-96 | no write when `<date>.md` exists and otherwise at least one; the first write is always the rendered markdown; a second write, the downloaded bytes to `<date>.jpg`, happens exactly when the image URL is truthy and the download succeeds; never more |
| `Storage.Apply` | etl_apod.py:66-92 | performing whole-file writes adds exactly the written names, leaves untouched files alone, and the last write to a name decides its contents |
| `Storage.ApodDir.constructor` | etl_apod.py:54-55 | the output directory starts with the given files and no writes |
| `Storage.ApodDir.Write` | etl_apod.py:66-66 | one whole-file write replaces that file and is recorded after all earlier writes |
| `Storage.ApodDir.SaveImageAndMarkdown` | etl_apod.py:52-96 | the writes performed and the new directory are those of `SavePlan` on the old directory; an existing markdown leaves directory and history unchanged; otherwise the rendered markdown is on disk afterwards whatever the download did |
| `Storage.SaveIsIdempotent` | etl_apod.py:60-63 | after a save, saving the same date again (any contents, any network) writes nothing |
| `Storage.SaveTouchesOnlyTheDay` | etl_apod.py:57-92 | a save changes no file other than the day's `.md` and `.jpg` |
| `Storage.SaveWritesBoth` | etl_apod.py:65-92 | a new day whose image downloads ends with the rendered markdown and the fetched bytes on disk |
| `Storage.SaveWithoutImage` | etl_apod.py:86-96 | a new day with no truthy image URL or a failed download ends with the markdown written and the image file as it was |
| `Storage.RetryNeverRefetchesImage` | etl_apod.py:60-63 | a day whose markdown exists but whose image is missing never gets the image on a later run |
| `Pipeline.ExitCode` | etl_apod.py:130-132 | exit status 0 exactly for a completed run, 1 for every caught error |
| `Pipeline.BuildRequest` | etl_apod.py:11-17 | the request carries the key and the thumbnail flag, and the date exactly when the date argument is truthy |
| `Pipeline.FirstMissing` | etl_apod.py:113-116 | None exactly when every field is present; otherwise a field that is absent and all fields before it present |
| `Pipeline.NoneMissingIffComplete` | etl_apod.py:113-116 | the check passes exactly when `date`, `media_type`, `title` and `explanation` are all present |
| `Pipeline.FindMissingField` | etl_apod.py:113-116 | the loop returns the first required field, in list order, that the record lacks, or None when there is none |
| `Pipeline.RunTrace` | etl_apod.py:104-128 | a missing or empty key fails with a configuration error before any request; otherwise exactly one request; a failed request is a network error; the first missing field is the schema error reported; an aborted run writes nothing; a run completes exactly when the key, the response and all fields are there, and then performs the persist step on the classified record with its `copyright` |
| `Pipeline.Run` | etl_apod.py:98-132 | one run returns the request and exit of `RunTrace`, and leaves the directory and the write history as its writes make them |
| `Pipeline.ImageDaySavesBoth` | etl_apod.py:38-92 | an image day whose URL downloads exits 0 with both files: `<date>.md` holds the text of writes that embed the image and link no video, `<date>.jpg` the bytes fetched from `url` |
| `Pipeline.VideoDaySavesThumbnail` | etl_apod.py:40-92 | a video day with a thumbnail exits 0; `<date>.md` holds the text of writes that have the video link followed by the image embed; `<date>.jpg` holds the downloaded thumbnail |
| `Pipeline.DownloadFailureIsNotFatal` | etl_apod.py:86-96 | a failed image download still exits 0 with the rendered markdown on disk and the image file untouched, in presence and in contents |
| `Pipeline.SecondRunIsNoOp` | etl_apod.py:60-63 | running again for a saved date completes and writes nothing |

## Left out

- The HTTP exchanges (`fetch_apod`'s GET, `raise_for_status`, JSON
  decoding, and the image GET): only their outcomes are modelled, as
  parameters. The request itself is modelled only as its query parameters.
- JSON values other than strings: the record is a map from field name to
  string, so a non-string `title` or `date` (formatted by Python's `str`) is
  not modelled. Presence of a required field is key presence, as in the code.
- The binary image contents: opaque bytes from the network.
- Filesystem errors (permissions, disk full, an error opening the image
  file): every write succeeds in the model, so the exit status 1 that such
  an error would cause is not modelled.
- The absolute output directory computed from the script's location and
  `os.makedirs`: file names are relative to the output directory.
- `argparse`, `os.getenv` and `sys.exit` (the key, the date argument and the
  exit status are parameters and results), and all diagnostics on stderr.
- Text-mode newline translation of the markdown file, and its encoding:
  `open(markdown_path, 'w')` encodes with the platform's default encoding,
  and a character it cannot encode (or a lone surrogate from a JSON escape,
  which a Dafny string cannot hold) aborts a write with exit status 1 and
  leaves a truncated `<date>.md` that every later run then skips. The model
  always stores the whole rendered text.
- Storage.MarkdownPathInjective: holds of the file names the model builds,
  not of the files they resolve to; the date is not validated, so a date
  containing `/`, `.` or `..` components, or an absolute path, names a file
  outside the output directory or the same file as another date string
  (`x` and `./x`). Path resolution by `os.path.join` is not modelled.
- Concurrent runs for the same date.
- CosmicChronicle/etl_apod.py is not part of this model: it is an older,
  superseded version of the same script.
