/** The markdown document `save_image_and_markdown` writes for one day:
    the sequence of `md_file.write` calls, each call one `Piece`, and the
    file contents as their concatenation. */
module Markdown {
  import opened Wrappers
  import opened Record
  import opened Media

  /** One `md_file.write` call, in the order the statements stand. */
  datatype Piece =
    | Open                       // "---\n"
    | TitleField(title: string)  // title: "<title>"
    | DateField(date: string)    // date: "<date>"
    | MediaTypeField(kind: string)
    | VideoUrlField(url: string)
    | CopyrightField(holder: string)
    | Close                      // "---\n\n"
    | Body(explanation: string)
    | VideoLink(url: string)     // [View Video](<url>)
    | ImageEmbed(date: string)   // ![APOD](<date>.jpg)

  /** The exact text one write call emits. */
  function Text(p: Piece): string
  {
    match p
    case Open => "---\n"
    case TitleField(t) => "title: \"" + t + "\"\n"
    case DateField(d) => "date: \"" + d + "\"\n"
    case MediaTypeField(k) => "media_type: \"" + k + "\"\n"
    case VideoUrlField(u) => "video_url: \"" + u + "\"\n"
    case CopyrightField(c) => "copyright: \"" + c + "\"\n"
    case Close => "---\n\n"
    case Body(e) => e + "\n"
    case VideoLink(u) => "\n[View Video](" + u + ")\n"
    case ImageEmbed(d) => "\n![APOD](" + d + ".jpg)\n"
  }

  /** Every write emits whole lines: its text is non-empty and ends in a
      newline. */
  lemma TextEndsWithNewline(p: Piece)
    ensures |Text(p)| > 0 && Text(p)[|Text(p)| - 1] == '\n'
  {
  }

  /** The position of each kind of write among the statements of the
      markdown block; pieces are always emitted in increasing rank. */
  function Rank(p: Piece): nat
  {
    match p
    case Open => 0
    case TitleField(_) => 1
    case DateField(_) => 2
    case MediaTypeField(_) => 3
    case VideoUrlField(_) => 4
    case CopyrightField(_) => 5
    case Close => 6
    case Body(_) => 7
    case VideoLink(_) => 8
    case ImageEmbed(_) => 9
  }

  /** `[p]` when the guarding truthiness test holds, nothing otherwise. */
  function When(b: bool, p: Piece): (r: seq<Piece>)
    ensures r == [] || r == [p]
    ensures p in r <==> b
  {
    if b then [p] else []
  }

  /** The four header lines every document starts with. */
  function HeadPieces(date: string, title: string, kind: string): seq<Piece>
  {
    [Open, TitleField(title), DateField(date), MediaTypeField(kind)]
  }

  /** The conditional front-matter lines: video URL, then copyright. */
  function OptionalFields(info: MediaInfo, copyright: Option<string>): (r: seq<Piece>)
    ensures forall p :: p in r ==> p.VideoUrlField? || p.CopyrightField?
  {
    When(Truthy(info.videoUrl), VideoUrlField(if Truthy(info.videoUrl) then info.videoUrl.value else ""))
      + When(Truthy(copyright), CopyrightField(if Truthy(copyright) then copyright.value else ""))
  }

  /** The closing marker and the explanation. */
  function BodyPieces(explanation: string): seq<Piece>
  {
    [Close, Body(explanation)]
  }

  /** The conditional links after the body: video link, then image embed. */
  function LinkPieces(date: string, info: MediaInfo): (r: seq<Piece>)
    ensures forall p :: p in r ==> p.VideoLink? || p.ImageEmbed?
  {
    When(Truthy(info.videoUrl), VideoLink(if Truthy(info.videoUrl) then info.videoUrl.value else ""))
      + When(Truthy(info.imageUrl), ImageEmbed(date))
  }

  /** The write calls of the markdown block, in order: four fixed header
      lines, the video URL and copyright lines when truthy, the closing
      marker and the body, then the video link and the image embed when
      truthy. */
  function Pieces(date: string, title: string, explanation: string,
                  info: MediaInfo, copyright: Option<string>): (r: seq<Piece>)
    ensures 6 <= |r| <= 10
    ensures r[..4] == HeadPieces(date, title, info.kind)
  {
    HeadPieces(date, title, info.kind) + OptionalFields(info, copyright)
      + BodyPieces(explanation) + LinkPieces(date, info)
  }

  /** The rank order is strict inside a sequence. */
  ghost predicate Ranked(s: seq<Piece>)
  {
    forall i, j :: 0 <= i < j < |s| ==> Rank(s[i]) < Rank(s[j])
  }

  /** Two ranked sequences, the first wholly below the second, join into a
      ranked sequence. */
  lemma RankedAppend(a: seq<Piece>, b: seq<Piece>)
    requires Ranked(a) && Ranked(b)
    requires forall x, y :: x in a && y in b ==> Rank(x) < Rank(y)
    ensures Ranked(a + b)
  {
    forall i, j | 0 <= i < j < |a + b|
      ensures Rank((a + b)[i]) < Rank((a + b)[j])
    {
      if j < |a| {
        assert (a + b)[i] == a[i] && (a + b)[j] == a[j];
      } else if i >= |a| {
        assert (a + b)[i] == b[i - |a|] && (a + b)[j] == b[j - |a|];
      } else {
        assert (a + b)[i] in a && (a + b)[j] in b;
      }
    }
  }

  /** The pieces follow the statement order of the markdown block, each
      kind of write at most once: in particular the front matter is closed
      before the body, and the video link comes before the image embed. */
  lemma PiecesInStatementOrder(date: string, title: string, explanation: string,
                               info: MediaInfo, copyright: Option<string>)
    ensures var r := Pieces(date, title, explanation, info, copyright);
            forall i, j :: 0 <= i < j < |r| ==> Rank(r[i]) < Rank(r[j])
  {
    var head := HeadPieces(date, title, info.kind);
    var opt := OptionalFields(info, copyright);
    var body := BodyPieces(explanation);
    var links := LinkPieces(date, info);
    HeadRanked(date, title, info.kind);
    OptRanked(info, copyright);
    LinksRanked(date, info);
    assert Ranked(body);
    RankedAppend(head, opt);
    RankedAppend(head + opt, body);
    RankedAppend(head + opt + body, links);
  }

  /** The header writes are ranked and all rank below the optional lines. */
  lemma HeadRanked(date: string, title: string, kind: string)
    ensures Ranked(HeadPieces(date, title, kind))
    ensures forall p :: p in HeadPieces(date, title, kind) ==> Rank(p) < 4
  {
    var h := HeadPieces(date, title, kind);
    assert forall i :: 0 <= i < 4 ==> Rank(h[i]) == i;
  }

  /** The optional front-matter lines are ranked. */
  lemma OptRanked(info: MediaInfo, copyright: Option<string>)
    ensures Ranked(OptionalFields(info, copyright))
  {
    var a := When(Truthy(info.videoUrl), VideoUrlField(if Truthy(info.videoUrl) then info.videoUrl.value else ""));
    var b := When(Truthy(copyright), CopyrightField(if Truthy(copyright) then copyright.value else ""));
    RankedAppend(a, b);
  }

  /** The optional links are ranked. */
  lemma LinksRanked(date: string, info: MediaInfo)
    ensures Ranked(LinkPieces(date, info))
  {
    var a := When(Truthy(info.videoUrl), VideoLink(if Truthy(info.videoUrl) then info.videoUrl.value else ""));
    var b := When(Truthy(info.imageUrl), ImageEmbed(date));
    RankedAppend(a, b);
  }

  /** Each conditional line is written exactly when its value is truthy,
      and the closing marker and the explanation are always written. */
  lemma PiecesConditionalLines(date: string, title: string, explanation: string,
                               info: MediaInfo, copyright: Option<string>)
    ensures var r := Pieces(date, title, explanation, info, copyright);
            && (forall u :: VideoUrlField(u) in r <==> Truthy(info.videoUrl) && u == info.videoUrl.value)
            && (forall c :: CopyrightField(c) in r <==> Truthy(copyright) && c == copyright.value)
            && (forall u :: VideoLink(u) in r <==> Truthy(info.videoUrl) && u == info.videoUrl.value)
            && (forall d :: ImageEmbed(d) in r <==> Truthy(info.imageUrl) && d == date)
            && Close in r && Body(explanation) in r
  {
    PiecesMembers(date, title, explanation, info, copyright);
    HeadRanked(date, title, info.kind);
    OptionalFieldsMembers(info, copyright);
    LinkPiecesMembers(date, info);
  }

  /** A piece is written when one of the four parts writes it. */
  lemma PiecesMembers(date: string, title: string, explanation: string,
                      info: MediaInfo, copyright: Option<string>)
    ensures forall p :: p in Pieces(date, title, explanation, info, copyright) <==>
              p in HeadPieces(date, title, info.kind) || p in OptionalFields(info, copyright) ||
              p == Close || p == Body(explanation) || p in LinkPieces(date, info)
  {
    var head := HeadPieces(date, title, info.kind);
    var opt := OptionalFields(info, copyright);
    var body := BodyPieces(explanation);
    var links := LinkPieces(date, info);
    var front, back := head + opt, body + links;
    assert Pieces(date, title, explanation, info, copyright) == front + back;
    assert forall p :: p in front + back <==> p in front || p in back;
    assert forall p :: p in front <==> p in head || p in opt;
    assert forall p :: p in back <==> p in body || p in links;
  }

  /** Which optional front-matter lines are written. */
  lemma OptionalFieldsMembers(info: MediaInfo, copyright: Option<string>)
    ensures var r := OptionalFields(info, copyright);
            && (forall u :: VideoUrlField(u) in r <==> Truthy(info.videoUrl) && u == info.videoUrl.value)
            && (forall c :: CopyrightField(c) in r <==> Truthy(copyright) && c == copyright.value)
  {
    var a := When(Truthy(info.videoUrl), VideoUrlField(if Truthy(info.videoUrl) then info.videoUrl.value else ""));
    var b := When(Truthy(copyright), CopyrightField(if Truthy(copyright) then copyright.value else ""));
    assert forall p :: p in a + b <==> p in a || p in b;
  }

  /** Which optional links are written. */
  lemma LinkPiecesMembers(date: string, info: MediaInfo)
    ensures var r := LinkPieces(date, info);
            && (forall u :: VideoLink(u) in r <==> Truthy(info.videoUrl) && u == info.videoUrl.value)
            && (forall d :: ImageEmbed(d) in r <==> Truthy(info.imageUrl) && d == date)
  {
    var a := When(Truthy(info.videoUrl), VideoLink(if Truthy(info.videoUrl) then info.videoUrl.value else ""));
    var b := When(Truthy(info.imageUrl), ImageEmbed(date));
    assert forall p :: p in a + b <==> p in a || p in b;
  }

  /** When both URLs are truthy, the video link is written and, after it,
      the image embed. */
  lemma VideoLinkBeforeImage(date: string, title: string, explanation: string,
                             info: MediaInfo, copyright: Option<string>)
    requires Truthy(info.videoUrl) && Truthy(info.imageUrl)
    ensures var r := Pieces(date, title, explanation, info, copyright);
            exists i, j :: 0 <= i < j < |r| && r[i] == VideoLink(info.videoUrl.value) && r[j] == ImageEmbed(date)
  {
    var r := Pieces(date, title, explanation, info, copyright);
    var links := LinkPieces(date, info);
    assert links == [VideoLink(info.videoUrl.value), ImageEmbed(date)];
    var k := |r| - 2;
    assert r[k] == links[0] && r[k + 1] == links[1];
  }

  /** The concatenated text of a sequence of writes. */
  function Concat(ps: seq<Piece>): string
  {
    if ps == [] then "" else Text(ps[0]) + Concat(ps[1..])
  }

  /** Writing `a` then `b` produces the text of `a` followed by that of `b`. */
  lemma {:induction false} ConcatAppend(a: seq<Piece>, b: seq<Piece>)
    ensures Concat(a + b) == Concat(a) + Concat(b)
  {
    if a == [] {
      assert a + b == b;
    } else {
      assert (a + b)[1..] == a[1..] + b;
      ConcatAppend(a[1..], b);
    }
  }

  /** The contents of `<date>.md`. */
  function Render(date: string, title: string, explanation: string,
                  info: MediaInfo, copyright: Option<string>): string
  {
    Concat(Pieces(date, title, explanation, info, copyright))
  }

  /** The fixed opening of every document: the marker and the title, date
      and media-type lines. */
  function FixedHeader(date: string, title: string, kind: string): string
  {
    Text(Open) + Text(TitleField(title)) + Text(DateField(date)) + Text(MediaTypeField(kind))
  }

  /** The text of a single write. */
  lemma ConcatOne(p: Piece)
    ensures Concat([p]) == Text(p)
  {
    assert [p][1..] == [];
  }

  /** The text of two consecutive writes. */
  lemma ConcatTwo(p: Piece, q: Piece)
    ensures Concat([p, q]) == Text(p) + Text(q)
  {
    assert [p, q] == [p] + [q];
    ConcatAppend([p], [q]);
    ConcatOne(p);
    ConcatOne(q);
  }

  /** The text of four consecutive runs of writes. */
  lemma ConcatFour(a: seq<Piece>, b: seq<Piece>, c: seq<Piece>, d: seq<Piece>)
    ensures Concat(a + b + c + d) == Concat(a) + Concat(b) + Concat(c) + Concat(d)
  {
    ConcatAppend(a + b + c, d);
    ConcatAppend(a + b, c);
    ConcatAppend(a, b);
  }

  /** The four header writes produce the fixed header. */
  lemma ConcatHead(date: string, title: string, kind: string)
    ensures Concat(HeadPieces(date, title, kind)) == FixedHeader(date, title, kind)
  {
    var a, b, c, d := Open, TitleField(title), DateField(date), MediaTypeField(kind);
    assert HeadPieces(date, title, kind) == [a, b] + [c, d];
    ConcatAppend([a, b], [c, d]);
    ConcatTwo(a, b);
    ConcatTwo(c, d);
  }

  /** The document is the text of its four parts, in order. */
  lemma RenderParts(date: string, title: string, explanation: string,
                    info: MediaInfo, copyright: Option<string>)
    ensures Render(date, title, explanation, info, copyright)
         == FixedHeader(date, title, info.kind) + Concat(OptionalFields(info, copyright))
          + Text(Close) + Text(Body(explanation)) + Concat(LinkPieces(date, info))
  {
    var head := HeadPieces(date, title, info.kind);
    var opt := OptionalFields(info, copyright);
    var body := BodyPieces(explanation);
    var links := LinkPieces(date, info);
    ConcatFour(head, opt, body, links);
    ConcatHead(date, title, info.kind);
    ConcatTwo(Close, Body(explanation));
  }

  /** Every document starts with the fixed header. */
  lemma RenderStartsWithHeader(date: string, title: string, explanation: string,
                               info: MediaInfo, copyright: Option<string>)
    ensures var doc := Render(date, title, explanation, info, copyright);
            var h := FixedHeader(date, title, info.kind);
            |h| <= |doc| && doc[..|h|] == h
  {
    RenderParts(date, title, explanation, info, copyright);
    var h := FixedHeader(date, title, info.kind);
    var x1 := h + Concat(OptionalFields(info, copyright));
    var x2 := x1 + Text(Close);
    var x3 := x2 + Text(Body(explanation));
    var doc := x3 + Concat(LinkPieces(date, info));
    assert x1[..|h|] == h;
    assert x2[..|h|] == x1[..|h|];
    assert x3[..|h|] == x2[..|h|];
    assert doc[..|h|] == x3[..|h|];
  }

  /** With no truthy video URL, copyright or image URL the document is just
      the front matter and the explanation. */
  lemma RenderPlain(date: string, title: string, explanation: string,
                    info: MediaInfo, copyright: Option<string>)
    requires !Truthy(info.videoUrl) && !Truthy(copyright) && !Truthy(info.imageUrl)
    ensures Render(date, title, explanation, info, copyright)
         == FixedHeader(date, title, info.kind) + "---\n\n" + explanation + "\n"
  {
    RenderParts(date, title, explanation, info, copyright);
    var h := FixedHeader(date, title, info.kind);
    assert OptionalFields(info, copyright) == [];
    assert LinkPieces(date, info) == [];
    assert h + Concat([]) == h;
    assert h + "---\n\n" + (explanation + "\n") == h + "---\n\n" + explanation + "\n";
  }

  /** With every optional value truthy the document holds all ten writes,
      the video link before the image embed. */
  lemma RenderFull(date: string, title: string, explanation: string,
                   info: MediaInfo, copyright: Option<string>)
    requires Truthy(info.videoUrl) && Truthy(copyright) && Truthy(info.imageUrl)
    ensures Render(date, title, explanation, info, copyright)
         == FixedHeader(date, title, info.kind)
          + Text(VideoUrlField(info.videoUrl.value)) + Text(CopyrightField(copyright.value))
          + Text(Close) + Text(Body(explanation))
          + Text(VideoLink(info.videoUrl.value)) + Text(ImageEmbed(date))
  {
    var v, c := info.videoUrl.value, copyright.value;
    RenderParts(date, title, explanation, info, copyright);
    assert OptionalFields(info, copyright) == [VideoUrlField(v), CopyrightField(c)];
    ConcatTwo(VideoUrlField(v), CopyrightField(c));
    assert LinkPieces(date, info) == [VideoLink(v), ImageEmbed(date)];
    ConcatTwo(VideoLink(v), ImageEmbed(date));
    Regroup(FixedHeader(date, title, info.kind), Text(VideoUrlField(v)), Text(CopyrightField(c)),
            Text(Close), Text(Body(explanation)), Text(VideoLink(v)), Text(ImageEmbed(date)));
  }

  /** Regrouping two pairs of strings in a longer concatenation. */
  lemma Regroup(h: string, a: string, b: string, c: string, d: string, e: string, f: string)
    ensures h + (a + b) + c + d + (e + f) == h + a + b + c + d + e + f
  {
    assert h + (a + b) == h + a + b;
    var pre := h + a + b + c + d;
    assert pre + (e + f) == pre + e + f;
  }
}
