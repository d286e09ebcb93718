/** The media classifier, `get_media_info`: which URL of the record is the
    image to download and which is the video to link to. */
module Media {
  import opened Wrappers
  import opened Record

  /** The dictionary `{type, image_url, video_url}` that `get_media_info`
      returns; a datatype with exactly these three fields. */
  datatype MediaInfo = MediaInfo(kind: string, imageUrl: Option<string>, videoUrl: Option<string>)

  /** `get_media_info`: start from `{type: media_type, image_url: None,
      video_url: None}` and fill in the URLs by the record's media type.
      The caller has checked that `media_type` is present; no other key
      needs to be, and no media type is rejected. */
  function Classify(rec: Record): (r: MediaInfo)
    requires "media_type" in rec
    // `type` is always the record's media type
    ensures r.kind == rec["media_type"]
    // an image with a URL: that URL is the image, there is no video
    ensures rec["media_type"] == "image" && "url" in rec ==>
              r.imageUrl == Some(rec["url"]) && r.videoUrl == None
    // a video: its URL is the video, its thumbnail (if any) the image
    ensures rec["media_type"] == "video" ==>
              r.videoUrl == Get(rec, "url") && r.imageUrl == Get(rec, "thumbnail_url")
    // anything else, including an image without a URL: no image, and the
    // URL (if any) is treated as a link
    ensures rec["media_type"] != "video" && !(rec["media_type"] == "image" && "url" in rec) ==>
              r.imageUrl == None && r.videoUrl == Get(rec, "url")
  {
    var mediaType := rec["media_type"];
    var blank := MediaInfo(mediaType, None, None);
    if mediaType == "image" && "url" in rec then
      blank.(imageUrl := Some(rec["url"]))
    else if mediaType == "video" then
      var withVideo := if "url" in rec then blank.(videoUrl := Some(rec["url"])) else blank;
      if "thumbnail_url" in rec then withVideo.(imageUrl := Some(rec["thumbnail_url"])) else withVideo
    else
      if "url" in rec then blank.(videoUrl := Some(rec["url"])) else blank
  }

  /** Every URL the classifier reports is copied from the record: the video
      from `url`, the image from `url` (images) or `thumbnail_url` (videos). */
  lemma ClassifyUrlsComeFromRecord(rec: Record)
    requires "media_type" in rec
    ensures Classify(rec).videoUrl.Some? ==> "url" in rec && Classify(rec).videoUrl.value == rec["url"]
    ensures Classify(rec).imageUrl.Some? ==>
              (rec["media_type"] == "image" && Classify(rec).imageUrl == Get(rec, "url")) ||
              (rec["media_type"] == "video" && Classify(rec).imageUrl == Get(rec, "thumbnail_url"))
  {
  }

  /** Only a video record can name both an image and a video; an image
      record never names a video unless it lacks a URL altogether. */
  lemma ClassifyBothOnlyForVideo(rec: Record)
    requires "media_type" in rec
    ensures Classify(rec).imageUrl.Some? && Classify(rec).videoUrl.Some? ==> rec["media_type"] == "video"
    ensures Classify(rec).imageUrl.Some? ==> rec["media_type"] in {"image", "video"}
  {
  }
}
