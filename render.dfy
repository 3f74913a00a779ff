/**
 The text the worker posts for one entry: the title cut to a fixed byte
 length, the image link, and the gallery link built from the entry's id.
 */
module Render {
  import opened Imgur

  /** Titles longer than this many bytes are cut. */
  const TitleLength: nat := 91

  /** The marker appended to a cut title, as the bytes the source literal holds. */
  const Ellipsis: Bytes := [0xC3, 0xA2, 0xE2, 0x82, 0xAC, 0xC2, 0xA6]

  /** The longest title `TruncateTitle` can return. */
  const MaxRenderedTitle: nat := TitleLength - 1 + |Ellipsis|

  // The ASCII pieces of the link and the status, as bytes (`ConstantsAreAscii` checks them).
  const ImageHost: Bytes := [104, 116, 116, 112, 58, 47, 47, 105, 46, 105, 109, 103, 117, 114, 46, 99, 111, 109, 47]
  const ImageSuffix: Bytes := [46, 106, 112, 103]
  const GalleryPrefix: Bytes :=
    [32, 40, 104, 116, 116, 112, 115, 58, 47, 47, 105, 109, 103, 117, 114, 46, 99, 111, 109, 47, 103, 97, 108, 108, 101, 114, 121, 47]
  const Space: Byte := ' ' as int
  const Slash: Byte := '/' as int
  const CloseParen: Byte := ')' as int

  /**
   A title of at most `TitleLength` bytes is kept; a longer one becomes its
   first `TitleLength - 1` bytes followed by the marker.
   */
  function TruncateTitle(title: Bytes): (r: Bytes)
    ensures |title| <= TitleLength ==> r == title
    ensures |title| > TitleLength ==>
      |r| == MaxRenderedTitle && r[..TitleLength - 1] == title[..TitleLength - 1] && r[TitleLength - 1..] == Ellipsis
    ensures |r| <= MaxRenderedTitle
  {
    if |title| > TitleLength then title[..TitleLength - 1] + Ellipsis else title
  }

  /** The image shown with the post: the cover image when the entry names one, else its own link. */
  function ChooseLink(e: Entry): (r: Bytes)
    ensures e.cover != [] ==> |r| == |ImageHost| + |e.cover| + |ImageSuffix| && r[..|ImageHost|] == ImageHost && r[|ImageHost|..|r| - |ImageSuffix|] == e.cover
                              && r[|r| - |ImageSuffix|..] == ImageSuffix
    ensures e.cover == [] ==> r == e.link
  {
    if e.cover != [] then ImageHost + e.cover + ImageSuffix else e.link
  }

  /** The gallery page of an entry, as it closes the status: " (https://imgur.com/gallery/<id>)". */
  function GalleryTail(id: Bytes): Bytes
  {
    GalleryPrefix + id + [CloseParen]
  }

  /** The status posted for an entry: "<title> <link> (https://imgur.com/gallery/<id>)". */
  function Status(e: Entry): (r: Bytes)
    ensures |r| > |TruncateTitle(e.title)| && r[..|TruncateTitle(e.title)|] == TruncateTitle(e.title)
    ensures |r| > |GalleryTail(e.id)| && r[|r| - |GalleryTail(e.id)|..] == GalleryTail(e.id)
    ensures |r| == |TruncateTitle(e.title)| + 1 + |ChooseLink(e)| + |GalleryTail(e.id)|
    ensures r[|TruncateTitle(e.title)|] == Space
    ensures r[|TruncateTitle(e.title)| + 1..|r| - |GalleryTail(e.id)|] == ChooseLink(e)
  {
    var title := TruncateTitle(e.title);
    var link := ChooseLink(e);
    var head := title + [Space] + link;
    assert head + GalleryTail(e.id) == title + [Space] + link + GalleryTail(e.id);
    assert (head + GalleryTail(e.id))[|title| + 1..|head|] == head[|title| + 1..] == link;
    title + [Space] + link + GalleryTail(e.id)
  }

  /** The bytes after the last '/' of `s` (all of `s` when it has none). */
  function LastSegment(s: Bytes): (r: Bytes)
    ensures |r| <= |s| && r == s[|s| - |r|..]
    ensures Slash !in r
  {
    if |s| == 0 || s[|s| - 1] == Slash then []
    else LastSegment(s[..|s| - 1]) + [s[|s| - 1]]
  }

  /** The id a status links to: the last path segment of the gallery link, without the closing parenthesis. */
  function GalleryIdOf(status: Bytes): Bytes
  {
    if |status| == 0 then [] else LastSegment(status[..|status| - 1])
  }

  /** Whatever precedes a '/', the last segment is what follows it when that holds no '/'. */
  lemma {:induction false} LastSegmentAfterSlash(prefix: Bytes, seg: Bytes)
    requires Slash !in seg
    ensures LastSegment(prefix + [Slash] + seg) == seg
  {
    var s := prefix + [Slash] + seg;
    if |seg| > 0 {
      var init := seg[..|seg| - 1];
      assert s[..|s| - 1] == prefix + [Slash] + init;
      LastSegmentAfterSlash(prefix, init);
    }
  }

  /** The byte constants spell "http://i.imgur.com/", ".jpg" and " (https://imgur.com/gallery/". */
  lemma ConstantsAreAscii()
    ensures ImageHost == Ascii("http://i.imgur.com/")
    ensures ImageSuffix == Ascii(".jpg")
    ensures GalleryPrefix == Ascii(" (https://imgur.com/gallery/")
  {
  }

  lemma GalleryPrefixEndsInSlash()
    ensures |GalleryPrefix| > 0 && GalleryPrefix == GalleryPrefix[..|GalleryPrefix| - 1] + [Slash]
  {
  }

  /** Whatever text comes first, the id is read back from the gallery link that closes it (ids hold no '/'). */
  lemma GalleryIdRoundTrip(before: Bytes, id: Bytes)
    requires Slash !in id
    ensures GalleryIdOf(before + GalleryTail(id)) == id
  {
    var s := before + GalleryTail(id);
    var dir := GalleryPrefix[..|GalleryPrefix| - 1];
    GalleryPrefixEndsInSlash();
    var body := before + GalleryPrefix + id;
    assert s == body + [CloseParen];
    assert s[..|s| - 1] == body;
    assert body == (before + dir) + [Slash] + id;
    LastSegmentAfterSlash(before + dir, id);
  }

  /** The posted status names the gallery page of exactly the entry's id (ids hold no '/'). */
  lemma StatusNamesGalleryId(e: Entry)
    requires Slash !in e.id
    ensures GalleryIdOf(Status(e)) == e.id
  {
    var status := Status(e);
    var tail := GalleryTail(e.id);
    assert status == status[..|status| - |tail|] + tail;
    GalleryIdRoundTrip(status[..|status| - |tail|], e.id);
  }

  /** Cutting a title a second time changes nothing. */
  lemma TruncateIdempotent(title: Bytes)
    ensures TruncateTitle(TruncateTitle(title)) == TruncateTitle(title)
  {
    if |title| > TitleLength {
      var r := TruncateTitle(title);
      assert r[..TitleLength - 1] == title[..TitleLength - 1];
    }
  }

  /** A title of 92 bytes is cut to 90 bytes plus the 7-byte marker: the result is longer than the input. */
  lemma CutCanLengthen(title: Bytes)
    requires |title| == TitleLength + 1
    ensures |TruncateTitle(title)| == |title| + 5
  {
  }
}
