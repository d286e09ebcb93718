/** The persist step, `save_image_and_markdown`, over an abstract output
    directory: a map from file name (relative to the `apod` directory) to
    contents. */
module Storage {
  import opened Wrappers
  import opened Record
  import opened Media
  import opened Markdown

  /** What a file holds: the markdown text, or the bytes of an image. */
  datatype Contents = TextFile(text: string) | Binary(bytes: seq<bv8>)

  /** What the network answers to `requests.get(url)` for an image: the
      body, or any failure that `requests` reports (transport error or an
      error status raised by `raise_for_status`). */
  datatype Download = Downloaded(body: seq<bv8>) | DownloadFailed

  /** The output directory: file name to contents. */
  type Files = map<string, Contents>

  /** One whole-file write. */
  datatype FileWrite = FileWrite(path: string, contents: Contents)

  function MarkdownPath(date: string): (r: string)
    ensures |r| == |date| + 3 && r[..|date|] == date && r[|date|..] == ".md"
  {
    date + ".md"
  }

  function ImagePath(date: string): (r: string)
    ensures |r| == |date| + 4 && r[..|date|] == date && r[|date|..] == ".jpg"
  {
    date + ".jpg"
  }

  /** The markdown file of one day is never the image file of any day. */
  lemma MarkdownPathIsNotImagePath(d1: string, d2: string)
    ensures MarkdownPath(d1) != ImagePath(d2)
  {
    var m, i := MarkdownPath(d1), ImagePath(d2);
    assert m[|m| - 1] == 'd';
    assert i[|i| - 1] == 'g';
  }

  /** Different days have different markdown files. */
  lemma MarkdownPathInjective(d1: string, d2: string)
    ensures MarkdownPath(d1) == MarkdownPath(d2) ==> d1 == d2
  {
    if MarkdownPath(d1) == MarkdownPath(d2) {
      assert |d1| == |d2|;
      assert d1 == MarkdownPath(d1)[..|d1|];
      assert d2 == MarkdownPath(d2)[..|d2|];
    }
  }

  /** The writes `save_image_and_markdown` performs, in order. Nothing when
      `<date>.md` already exists; otherwise the markdown, and after it the
      image when the image URL is truthy and its download succeeds. A
      failed download adds no write and raises nothing. */
  function SavePlan(files: Files, date: string, title: string, explanation: string,
                    info: MediaInfo, copyright: Option<string>,
                    server: string -> Download): (plan: seq<FileWrite>)
    // idempotent skip
    ensures MarkdownPath(date) in files <==> plan == []
    // the markdown is always the first write
    ensures plan != [] ==>
              plan[0] == FileWrite(MarkdownPath(date), TextFile(Render(date, title, explanation, info, copyright)))
    // a second write happens exactly when the image was fetched
    ensures |plan| <= 2
    ensures |plan| == 2 <==>
              MarkdownPath(date) !in files && Truthy(info.imageUrl) && server(info.imageUrl.value).Downloaded?
    ensures |plan| == 2 ==>
              plan[1] == FileWrite(ImagePath(date), Binary(server(info.imageUrl.value).body))
  {
    if MarkdownPath(date) in files then
      []
    else
      var markdown := FileWrite(MarkdownPath(date), TextFile(Render(date, title, explanation, info, copyright)));
      if Truthy(info.imageUrl) then
        match server(info.imageUrl.value)
        case Downloaded(body) => [markdown, FileWrite(ImagePath(date), Binary(body))]
        case DownloadFailed => [markdown]
      else
        [markdown]
  }

  /** The paths a plan writes to. */
  function Written(plan: seq<FileWrite>): set<string>
  {
    set w | w in plan :: w.path
  }

  /** The directory after performing `plan` in order. */
  function Apply(files: Files, plan: seq<FileWrite>): (r: Files)
    decreases |plan|
    // the written files are added, nothing is removed
    ensures r.Keys == files.Keys + Written(plan)
    // a file no write touches keeps its contents
    ensures forall p :: p in files && p !in Written(plan) ==> r[p] == files[p]
    // the last write to a file decides its contents
    ensures forall i :: 0 <= i < |plan| && (forall j :: i < j < |plan| ==> plan[j].path != plan[i].path) ==>
              r[plan[i].path] == plan[i].contents
  {
    if plan == [] then files
    else
      var first, rest := plan[0], plan[1..];
      assert Written(plan) == {first.path} + Written(rest) by {
        assert forall w :: w in plan <==> w == first || w in rest;
      }
      var r := Apply(files[first.path := first.contents], rest);
      assert forall i :: 1 <= i < |plan| ==> plan[i] == rest[i - 1];
      r
  }

  /** The output directory; `history` records every whole-file write in the
      order it happened, so that "markdown before image" can be stated. */
  class ApodDir {
    var files: Files
    ghost var history: seq<FileWrite>

    constructor (initial: Files)
      ensures files == initial && history == []
    {
      files := initial;
      history := [];
    }

    /** `open(path, mode)` and write the whole contents. */
    method Write(w: FileWrite)
      modifies this
      ensures files == old(files)[w.path := w.contents]
      ensures history == old(history) + [w]
    {
      files := files[w.path := w.contents];
      history := history + [w];
    }

    /** `save_image_and_markdown`; `server` stands for what the network
        answers to the image download. */
    method SaveImageAndMarkdown(date: string, title: string, explanation: string,
                                info: MediaInfo, copyright: Option<string>,
                                server: string -> Download)
      modifies this
      ensures history == old(history) + SavePlan(old(files), date, title, explanation, info, copyright, server)
      ensures files == Apply(old(files), SavePlan(old(files), date, title, explanation, info, copyright, server))
      // the markdown already there: nothing changes
      ensures MarkdownPath(date) in old(files) ==> files == old(files) && history == old(history)
      // otherwise the markdown is on disk afterwards, whatever the download did
      ensures MarkdownPath(date) !in old(files) ==>
                MarkdownPath(date) in files &&
                files[MarkdownPath(date)] == TextFile(Render(date, title, explanation, info, copyright))
    {
      var markdownPath := MarkdownPath(date);
      if markdownPath in files {
        return;
      }
      var before := files;
      var markdown := FileWrite(markdownPath, TextFile(Render(date, title, explanation, info, copyright)));
      Write(markdown);
      if Truthy(info.imageUrl) {
        var response := server(info.imageUrl.value);
        match response
        case Downloaded(body) =>
          MarkdownPathIsNotImagePath(date, date);
          Write(FileWrite(ImagePath(date), Binary(body)));
          assert files == Apply(before, [markdown, FileWrite(ImagePath(date), Binary(body))]);
        case DownloadFailed =>
          // reported on stderr and swallowed
          assert files == Apply(before, [markdown]);
      } else {
        assert files == Apply(before, [markdown]);
      }
    }
  }

  /** Once a day is saved, saving it again (with any record contents and any
      network) writes nothing. */
  lemma SaveIsIdempotent(files: Files, date: string,
                         title: string, explanation: string, info: MediaInfo,
                         copyright: Option<string>, server: string -> Download,
                         title': string, explanation': string, info': MediaInfo,
                         copyright': Option<string>, server': string -> Download)
    ensures var once := Apply(files, SavePlan(files, date, title, explanation, info, copyright, server));
            SavePlan(once, date, title', explanation', info', copyright', server') == []
  {
    var plan := SavePlan(files, date, title, explanation, info, copyright, server);
    if plan != [] {
      assert plan[0] in plan;
    }
  }

  /** A save writes the day's markdown file, and its image file only when
      the download succeeded; every other file is left as it was. */
  lemma SaveTouchesOnlyTheDay(files: Files, date: string, title: string, explanation: string,
                              info: MediaInfo, copyright: Option<string>,
                              server: string -> Download, p: string)
    requires p != MarkdownPath(date) && p != ImagePath(date)
    ensures var after := Apply(files, SavePlan(files, date, title, explanation, info, copyright, server));
            (p in after <==> p in files) && (p in files ==> after[p] == files[p])
  {
    var plan := SavePlan(files, date, title, explanation, info, copyright, server);
    assert forall w :: w in plan ==> w.path == MarkdownPath(date) || w.path == ImagePath(date);
  }

  /** A new day whose image downloads: afterwards both files hold what was
      rendered and what was fetched. */
  lemma SaveWritesBoth(files: Files, date: string, title: string, explanation: string,
                       info: MediaInfo, copyright: Option<string>, server: string -> Download)
    requires MarkdownPath(date) !in files
    requires Truthy(info.imageUrl) && server(info.imageUrl.value).Downloaded?
    ensures var after := Apply(files, SavePlan(files, date, title, explanation, info, copyright, server));
            && MarkdownPath(date) in after
            && after[MarkdownPath(date)] == TextFile(Render(date, title, explanation, info, copyright))
            && ImagePath(date) in after
            && after[ImagePath(date)] == Binary(server(info.imageUrl.value).body)
  {
    MarkdownPathIsNotImagePath(date, date);
    var plan := SavePlan(files, date, title, explanation, info, copyright, server);
    assert plan[0] in plan && plan[1] in plan;
  }

  /** A new day whose image cannot be fetched, or that has no truthy image
      URL: the markdown is written and the image file is left as it was. */
  lemma SaveWithoutImage(files: Files, date: string, title: string, explanation: string,
                         info: MediaInfo, copyright: Option<string>, server: string -> Download)
    requires MarkdownPath(date) !in files
    requires !Truthy(info.imageUrl) || server(info.imageUrl.value).DownloadFailed?
    ensures var after := Apply(files, SavePlan(files, date, title, explanation, info, copyright, server));
            && MarkdownPath(date) in after
            && after[MarkdownPath(date)] == TextFile(Render(date, title, explanation, info, copyright))
            && (ImagePath(date) in after <==> ImagePath(date) in files)
            && (ImagePath(date) in files ==> after[ImagePath(date)] == files[ImagePath(date)])
  {
    MarkdownPathIsNotImagePath(date, date);
    var plan := SavePlan(files, date, title, explanation, info, copyright, server);
    assert plan[0] in plan;
  }

  /** The skip looks only at the markdown file: a day whose image is missing
      (an earlier download failed) never gets its image on a later run,
      however the network answers then. */
  lemma RetryNeverRefetchesImage(files: Files, date: string, title: string, explanation: string,
                                 info: MediaInfo, copyright: Option<string>, server: string -> Download)
    requires MarkdownPath(date) in files && ImagePath(date) !in files
    ensures ImagePath(date) !in Apply(files, SavePlan(files, date, title, explanation, info, copyright, server))
  {
  }
}
