/** `getImageUrl`, written out identically in both pages
    (src/app/dashboard/page.tsx:141-148 and src/app/page.tsx:204-213): a Google Drive
    share link becomes the address of its thumbnail, anything else is kept. */
module ImageLinks {
  import opened Text

  const DriveHost: string := "drive.google.com"
  const ThumbnailBase: string := "https://drive.google.com/thumbnail?id="
  const ThumbnailSize: string := "&sz=w1200"

  /** The thumbnail address of a Drive file. */
  function Thumbnail(fileId: string): string {
    ThumbnailBase + fileId + ThumbnailSize
  }

  /** `url.split('/d/')[1]?.split('/')[0] || url.split('id=')[1]?.split('&')[0]`, where
      an `undefined` result is written into the template as the text "undefined". */
  function DriveFileId(url: string): string {
    var fromPath := match SecondPiece(url, "/d/")
                    case None => ""
                    case Some(piece) => BeforeFirst(piece, "/");
    if fromPath != "" then fromPath
    else
      match SecondPiece(url, "id=")
      case None => "undefined"
      case Some(piece) => BeforeFirst(piece, "&")
  }

  /** An empty link gives no image; a Drive link gives a thumbnail address; any other
      link is used as it is. */
  function GetImageUrl(url: string): (r: string)
    ensures url == "" ==> r == ""
    ensures url != "" && !Contains(url, DriveHost) ==> r == url
    ensures url != "" && Contains(url, DriveHost) ==> StartsWith(r, ThumbnailBase)
  {
    if url == "" then ""
    else if Contains(url, DriveHost) then Thumbnail(DriveFileId(url))
    else url
  }

  /** Helper for `DriveFileLink`, read off the definition: the thumbnail address once the
      `/d/` piece of a Drive link is known. */
  lemma FromPathPiece(url: string, piece: string, fileId: string)
    requires Contains(url, DriveHost)
    requires SecondPiece(url, "/d/") == Some(piece) && BeforeFirst(piece, "/") == fileId
    requires fileId != ""
    ensures GetImageUrl(url) == Thumbnail(fileId)
  {
  }

  /** Helper for `DriveOpenLink`, read off the definition: the thumbnail address once a Drive
      link is known to have no `/d/` piece and its `id=` piece is known. */
  lemma FromQueryPiece(url: string, piece: string, fileId: string)
    requires Contains(url, DriveHost)
    requires SecondPiece(url, "/d/") == None
    requires SecondPiece(url, "id=") == Some(piece) && BeforeFirst(piece, "&") == fileId
    ensures GetImageUrl(url) == Thumbnail(fileId)
  {
  }

  /** A file link `…/d/ID/…` gives the thumbnail of ID, whatever follows the ID
      (`/view?usp=sharing`, nothing, …), as long as no `/d/` comes before the ID's own. */
  lemma {:induction false} DriveFileLink(head: string, fileId: string, tail: string)
    requires Contains(head, DriveHost)
    requires !Contains(head + "/d", "/d/")
    requires fileId != "" && '/' !in fileId
    requires tail == "" || tail[0] == '/'
    ensures GetImageUrl(head + "/d/" + fileId + tail) == Thumbnail(fileId)
  {
    var rest := fileId + tail;
    var url := head + "/d/" + rest;
    AppendAssoc(head, "/d/", fileId, tail);
    ContainsPrefix(head, "/d/" + rest, DriveHost);
    assert "/d/"[..2] == "/d";
    AfterFirstAt(head, "/d/", rest);
    NoStartInside(fileId, tail, "/d/");
    CutKeepsId(fileId, tail, "/d/", '/');
    FromPathPiece(url, BeforeFirst(rest, "/d/"), fileId);
  }

  /** `id=` cannot start inside an id without `=` that is followed by nothing or by `&`. */
  lemma NoKeyInside(fileId: string, tail: string)
    requires '=' !in fileId
    requires tail == "" || tail[0] == '&'
    ensures forall j: nat :: j < |fileId| ==> !OccursAt(fileId + tail, "id=", j)
  {
    var rest := fileId + tail;
    forall j: nat | j < |fileId|
      ensures !OccursAt(rest, "id=", j)
    {
      if j + 2 < |fileId| {
        assert rest[j + 2] == fileId[j + 2];
      } else if j + 2 == |fileId| {
        assert tail == "" || rest[j + 2] == tail[0];
      } else {
        assert tail == "" || rest[j + 1] == tail[0];
      }
    }
  }

  /** An `open?id=ID&…` link without any `/d/` gives the thumbnail of ID. */
  lemma {:induction false} DriveOpenLink(head: string, fileId: string, tail: string)
    requires Contains(head, DriveHost)
    requires !Contains(head + "id=" + fileId + tail, "/d/")
    requires !Contains(head + "id", "id=")
    requires '&' !in fileId && '=' !in fileId
    requires tail == "" || tail[0] == '&'
    ensures GetImageUrl(head + "id=" + fileId + tail) == Thumbnail(fileId)
  {
    var rest := fileId + tail;
    var url := head + "id=" + rest;
    AppendAssoc(head, "id=", fileId, tail);
    ContainsPrefix(head, "id=" + rest, DriveHost);
    assert "id="[..2] == "id";
    AfterFirstAt(head, "id=", rest);
    NoKeyInside(fileId, tail);
    CutKeepsId(fileId, tail, "id=", '&');
    FromQueryPiece(url, BeforeFirst(rest, "id="), fileId);
  }

  /** A Drive link with neither `/d/` nor `id=` puts the word "undefined" in the address. */
  lemma DriveLinkWithoutId(url: string)
    requires Contains(url, DriveHost)
    requires !Contains(url, "/d/") && !Contains(url, "id=")
    ensures GetImageUrl(url) == Thumbnail("undefined")
  {
  }
}
