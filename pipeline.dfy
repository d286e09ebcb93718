/** The orchestration in `main`: the API-key check, the one fetch, the
    required-field check, classification and the persist step, with the
    exit status the process ends with. */
module Pipeline {
  import opened Wrappers
  import opened Record
  import opened Media
  import opened Markdown
  import opened Storage

  /** The three fatal conditions `main` turns into exit status 1. */
  datatype Error =
    | ConfigError               // NASA_API_KEY unset or empty
    | NetworkError              // the APOD request failed
    | SchemaError(field: string) // a required field is absent

  datatype Exit = Completed | Aborted(error: Error)

  function ExitCode(e: Exit): (code: nat)
    ensures code == 0 <==> e.Completed?
    ensures code <= 1
  {
    if e.Completed? then 0 else 1
  }

  /** The query `fetch_apod` sends: the key, the thumbnail flag (always
      on) and the date, included only when the date argument is truthy. */
  datatype FetchRequest = FetchRequest(apiKey: string, thumbs: bool, date: Option<string>)

  /** What the APOD endpoint answers to the request, once parsed; any
      `requests` failure (transport, error status) is `RequestFailed`. */
  datatype Response = Received(record: Record) | RequestFailed

  function BuildRequest(apiKey: string, dateArg: Option<string>): (r: FetchRequest)
    ensures r.apiKey == apiKey && r.thumbs
    ensures r.date.Some? <==> Truthy(dateArg)
    ensures r.date.Some? ==> r.date == dateArg
  {
    var params := FetchRequest(apiKey, true, None);
    if Truthy(dateArg) then params.(date := dateArg) else params
  }

  /** The fields `main` requires, in the order it checks them. */
  const RequiredFields: seq<string> := ["date", "media_type", "title", "explanation"]

  /** The first of `fields` that `rec` lacks, if any. */
  function FirstMissing(rec: Record, fields: seq<string>): (r: Option<string>)
    ensures r.None? <==> forall i :: 0 <= i < |fields| ==> fields[i] in rec
    ensures r.Some? ==> exists i :: 0 <= i < |fields| && fields[i] == r.value && r.value !in rec &&
                                    forall j :: 0 <= j < i ==> fields[j] in rec
  {
    if fields == [] then None
    else if fields[0] !in rec then Some(fields[0])
    else
      var r := FirstMissing(rec, fields[1..]);
      assert forall i :: 1 <= i < |fields| ==> fields[i] == fields[1..][i - 1];
      r
  }

  /** The `for field in required_fields` loop: stop at the first absent
      field. */
  method FindMissingField(rec: Record) returns (missing: Option<string>)
    ensures missing.None? <==> forall i :: 0 <= i < |RequiredFields| ==> RequiredFields[i] in rec
    ensures missing.Some? ==>
              exists i :: 0 <= i < |RequiredFields| && RequiredFields[i] == missing.value &&
                          missing.value !in rec && forall j :: 0 <= j < i ==> RequiredFields[j] in rec
    ensures missing == FirstMissing(rec, RequiredFields)
  {
    var i := 0;
    while i < |RequiredFields|
      invariant 0 <= i <= |RequiredFields|
      invariant forall j :: 0 <= j < i ==> RequiredFields[j] in rec
      invariant FirstMissing(rec, RequiredFields) == FirstMissing(rec, RequiredFields[i..])
    {
      assert RequiredFields[i..][1..] == RequiredFields[i + 1..];
      if RequiredFields[i] !in rec {
        return Some(RequiredFields[i]);
      }
      i := i + 1;
    }
    return None;
  }

  /** Every required field is present. */
  predicate HasRequiredFields(rec: Record)
  {
    "date" in rec && "media_type" in rec && "title" in rec && "explanation" in rec
  }

  /** The loop finds nothing exactly when every required field is present. */
  lemma NoneMissingIffComplete(rec: Record)
    ensures FirstMissing(rec, RequiredFields).None? <==> HasRequiredFields(rec)
  {
    var r := FirstMissing(rec, RequiredFields);
    if r.None? {
      assert RequiredFields[0] in rec && RequiredFields[1] in rec;
      assert RequiredFields[2] in rec && RequiredFields[3] in rec;
    }
  }

  /** What one run does: the request it sends (None when it sends none),
      how it exits, and the writes it performs in order. */
  datatype Trace = Trace(request: Option<FetchRequest>, exit: Exit, writes: seq<FileWrite>)

  /** `main`, given the directory before the run, the environment's key,
      the `--date` argument, and what the network answers. */
  function RunTrace(files: Files, apiKey: Option<string>, dateArg: Option<string>,
                 response: Response, server: string -> Download): (t: Trace)
    // a missing or empty key: no request, nothing written
    ensures !Truthy(apiKey) ==> t == Trace(None, Aborted(ConfigError), [])
    // otherwise exactly the one request
    ensures Truthy(apiKey) ==> t.request == Some(BuildRequest(apiKey.value, dateArg))
    ensures Truthy(apiKey) && response.RequestFailed? ==> t.exit == Aborted(NetworkError)
    // the first absent required field is the one reported
    ensures Truthy(apiKey) && response.Received? && FirstMissing(response.record, RequiredFields).Some? ==>
              t.exit == Aborted(SchemaError(FirstMissing(response.record, RequiredFields).value))
    // an aborted run writes nothing
    ensures t.exit.Aborted? ==> t.writes == []
    // a completed run had every field and performs the persist step
    ensures t.exit.Completed? <==>
              Truthy(apiKey) && response.Received? && HasRequiredFields(response.record)
    ensures t.exit.Completed? ==>
              var rec := response.record;
              HasRequiredFields(rec) &&
              t.writes == SavePlan(files, rec["date"], rec["title"], rec["explanation"],
                                   Classify(rec), Get(rec, "copyright"), server)
  {
    if !Truthy(apiKey) then Trace(None, Aborted(ConfigError), [])
    else
      var request := Some(BuildRequest(apiKey.value, dateArg));
      match response
      case RequestFailed => Trace(request, Aborted(NetworkError), [])
      case Received(rec) =>
        match FirstMissing(rec, RequiredFields)
        case Some(field) =>
          NoneMissingIffComplete(rec);
          Trace(request, Aborted(SchemaError(field)), [])
        case None =>
          NoneMissingIffComplete(rec);
          Trace(request, Completed,
                SavePlan(files, rec["date"], rec["title"], rec["explanation"],
                         Classify(rec), Get(rec, "copyright"), server))
  }

  /** One run of the script against the output directory `dir`; the
      environment, the command line and the network are parameters.
      Returns the request it sent and how the process exits. */
  method Run(dir: ApodDir, apiKey: Option<string>, dateArg: Option<string>,
             response: Response, server: string -> Download)
    returns (request: Option<FetchRequest>, exit: Exit)
    modifies dir
    ensures var t := RunTrace(old(dir.files), apiKey, dateArg, response, server);
            && request == t.request && exit == t.exit
            && dir.history == old(dir.history) + t.writes
            && dir.files == Apply(old(dir.files), t.writes)
  {
    if !Truthy(apiKey) {
      return None, Aborted(ConfigError);
    }
    request := Some(BuildRequest(apiKey.value, dateArg));
    match response
    case RequestFailed =>
      exit := Aborted(NetworkError);
    case Received(rec) =>
      var missing := FindMissingField(rec);
      if missing.Some? {
        exit := Aborted(SchemaError(missing.value));
        return;
      }
      NoneMissingIffComplete(rec);
      var info := Classify(rec);
      dir.SaveImageAndMarkdown(rec["date"], rec["title"], rec["explanation"], info,
                               Get(rec, "copyright"), server);
      exit := Completed;
  }

  /** An image day with a URL that downloads: the run succeeds, the
      markdown file on disk is the text of writes that embed the local image
      and link no video, and the image file holds what was fetched from the
      record's URL. */
  lemma ImageDaySavesBoth(files: Files, apiKey: Option<string>, dateArg: Option<string>,
                          rec: Record, server: string -> Download)
    requires Truthy(apiKey) && HasRequiredFields(rec)
    requires rec["media_type"] == "image" && Truthy(Get(rec, "url"))
    requires MarkdownPath(rec["date"]) !in files && server(rec["url"]).Downloaded?
    ensures var t := RunTrace(files, apiKey, dateArg, Received(rec), server);
            var after := Apply(files, t.writes);
            var doc := Pieces(rec["date"], rec["title"], rec["explanation"], Classify(rec), Get(rec, "copyright"));
            && ExitCode(t.exit) == 0
            && MarkdownPath(rec["date"]) in after && ImagePath(rec["date"]) in after
            && after[MarkdownPath(rec["date"])] == TextFile(Concat(doc))
            && after[ImagePath(rec["date"])] == Binary(server(rec["url"]).body)
            && ImageEmbed(rec["date"]) in doc
            && forall u :: VideoLink(u) !in doc
  {
    var info := Classify(rec);
    SaveWritesBoth(files, rec["date"], rec["title"], rec["explanation"], info, Get(rec, "copyright"), server);
    PiecesConditionalLines(rec["date"], rec["title"], rec["explanation"], info, Get(rec, "copyright"));
  }

  /** A video day with a thumbnail: the image file is the downloaded
      thumbnail, and the markdown file on disk is the text of writes that
      hold both the video link and the image embed, the link first. */
  lemma VideoDaySavesThumbnail(files: Files, apiKey: Option<string>, dateArg: Option<string>,
                               rec: Record, server: string -> Download)
    requires Truthy(apiKey) && HasRequiredFields(rec)
    requires rec["media_type"] == "video" && Truthy(Get(rec, "url")) && Truthy(Get(rec, "thumbnail_url"))
    requires MarkdownPath(rec["date"]) !in files && server(rec["thumbnail_url"]).Downloaded?
    ensures var t := RunTrace(files, apiKey, dateArg, Received(rec), server);
            var after := Apply(files, t.writes);
            var doc := Pieces(rec["date"], rec["title"], rec["explanation"], Classify(rec), Get(rec, "copyright"));
            && ExitCode(t.exit) == 0
            && MarkdownPath(rec["date"]) in after
            && after[MarkdownPath(rec["date"])] == TextFile(Concat(doc))
            && ImagePath(rec["date"]) in after
            && after[ImagePath(rec["date"])] == Binary(server(rec["thumbnail_url"]).body)
            && exists i, j :: 0 <= i < j < |doc| && doc[i] == VideoLink(rec["url"]) && doc[j] == ImageEmbed(rec["date"])
  {
    var date, info, c := rec["date"], Classify(rec), Get(rec, "copyright");
    SaveWritesBoth(files, date, rec["title"], rec["explanation"], info, c, server);
    VideoLinkBeforeImage(date, rec["title"], rec["explanation"], info, c);
  }

  /** A failed image download does not fail the run: the process exits 0
      with the markdown on disk. */
  lemma DownloadFailureIsNotFatal(files: Files, apiKey: Option<string>, dateArg: Option<string>,
                                  rec: Record, server: string -> Download)
    requires Truthy(apiKey) && HasRequiredFields(rec)
    requires MarkdownPath(rec["date"]) !in files
    requires var info := Classify(rec); Truthy(info.imageUrl) && server(info.imageUrl.value).DownloadFailed?
    ensures var t := RunTrace(files, apiKey, dateArg, Received(rec), server);
            var after := Apply(files, t.writes);
            && ExitCode(t.exit) == 0
            && MarkdownPath(rec["date"]) in after
            && after[MarkdownPath(rec["date"])]
               == TextFile(Render(rec["date"], rec["title"], rec["explanation"], Classify(rec), Get(rec, "copyright")))
            && (ImagePath(rec["date"]) in after <==> ImagePath(rec["date"]) in files)
            && (ImagePath(rec["date"]) in files ==> after[ImagePath(rec["date"])] == files[ImagePath(rec["date"])])
  {
    SaveWithoutImage(files, rec["date"], rec["title"], rec["explanation"], Classify(rec),
                     Get(rec, "copyright"), server);
  }

  /** Running again for a day that is already saved succeeds and writes
      nothing, whatever the API and the network answer the second time
      (as long as they name the same date). */
  lemma SecondRunIsNoOp(files: Files, apiKey: Option<string>, dateArg: Option<string>,
                        rec: Record, server: string -> Download,
                        rec': Record, server': string -> Download)
    requires Truthy(apiKey) && HasRequiredFields(rec) && HasRequiredFields(rec')
    requires rec'["date"] == rec["date"]
    ensures var first := RunTrace(files, apiKey, dateArg, Received(rec), server);
            var second := RunTrace(Apply(files, first.writes), apiKey, dateArg, Received(rec'), server');
            second.exit == Completed && second.writes == []
  {
    var date := rec["date"];
    SaveIsIdempotent(files, date, rec["title"], rec["explanation"], Classify(rec), Get(rec, "copyright"), server,
                     rec'["title"], rec'["explanation"], Classify(rec'), Get(rec', "copyright"), server');
  }
}
