/** _print_image_list and the text/JSON switch of the "image list" command.
    Each printed line is one element of the output sequence. */
module ImageListing {
  import opened Format
  import opened Images

  /** Width of the file-name column when the SHA256 column is shown. */
  const NameColumn: nat := 80

  /** One line of the listing, '{file_name}' or '{file_name:80}{sha256}':
      with the SHA256 column, the name is padded with spaces to 80 characters
      (a longer name is kept whole) and the checksum follows at once. */
  function Row(fileName: string, sha256: string, withSha: bool): (line: string)
    ensures !withSha ==> line == fileName
    ensures withSha ==> |line| == (if |fileName| < NameColumn then NameColumn else |fileName|) + |sha256|
    ensures withSha ==> line[..|fileName|] == fileName
    ensures withSha ==> forall i :: |fileName| <= i < NameColumn ==> line[i] == ' '
    ensures withSha ==> line[|line| - |sha256|..] == sha256
  {
    if withSha then LeftJustify(fileName, NameColumn) + sha256 else fileName
  }

  function ImageRow(image: Image, withSha: bool): string
  {
    Row(image.fileName, image.sha256, withSha)
  }

  /** The header printed before the first record: the column titles, then an
      empty line. */
  function Header(withSha: bool): seq<string>
  {
    [Row("File-Name", "SHA256", withSha), ""]
  }

  /** One row per record, in input order. */
  function Rows(images: seq<Image>, withSha: bool): (lines: seq<string>)
    ensures |lines| == |images|
  {
    if images == [] then [] else [ImageRow(images[0], withSha)] + Rows(images[1..], withSha)
  }

  /** Everything _print_image_list prints: nothing for no records, otherwise
      the header and one row per record. */
  function ListingLines(images: seq<Image>, withSha: bool): seq<string>
  {
    if images == [] then [] else Header(withSha) + Rows(images, withSha)
  }

  /** Row i of the output is the row of record i. */
  lemma {:induction false} RowsAt(images: seq<Image>, withSha: bool, i: nat)
    requires i < |images|
    ensures Rows(images, withSha)[i] == ImageRow(images[i], withSha)
  {
    if i > 0 {
      RowsAt(images[1..], withSha, i - 1);
    }
  }

  /** Rows of a sequence extended by one record are the old rows and one more. */
  lemma {:induction false} RowsSnoc(images: seq<Image>, image: Image, withSha: bool)
    ensures Rows(images + [image], withSha) == Rows(images, withSha) + [ImageRow(image, withSha)]
  {
    if images != [] {
      assert (images + [image])[1..] == images[1..] + [image];
      RowsSnoc(images[1..], image, withSha);
    } else {
      assert (images + [image])[1..] == [];
    }
  }

  /** _print_image_list: the header is printed on the first record only, as
      the start_line flag says, then each record's row in turn. */
  method PrintImageList(images: seq<Image>, withSha: bool) returns (out: seq<string>)
    ensures out == ListingLines(images, withSha)
  {
    out := [];
    var startLine := true;
    for i := 0 to |images|
      invariant startLine <==> i == 0
      invariant out == ListingLines(images[..i], withSha)
    {
      if startLine {
        startLine := false;
        out := out + [Row("File-Name", "SHA256", withSha)];
        out := out + [""];
      }
      out := out + [ImageRow(images[i], withSha)];
      assert images[..i + 1] == images[..i] + [images[i]];
      RowsSnoc(images[..i], images[i], withSha);
    }
    assert images[..|images|] == images;
  }

  /** No records print nothing at all; m records print m + 2 lines: the
      column titles, an empty line, then the rows in input order. */
  lemma ListingShape(images: seq<Image>, withSha: bool)
    ensures ListingLines(images, withSha) == [] <==> images == []
    ensures images != [] ==>
      var lines := ListingLines(images, withSha);
      && |lines| == |images| + 2
      && lines[0] == Row("File-Name", "SHA256", withSha)
      && lines[1] == ""
      && forall i :: 0 <= i < |images| ==> lines[i + 2] == ImageRow(images[i], withSha)
  {
    forall i | 0 <= i < |images|
      ensures Rows(images, withSha)[i] == ImageRow(images[i], withSha)
    {
      RowsAt(images, withSha, i);
    }
  }

  /** What "image list" produces: the records themselves in JSON mode, the
      listing text otherwise. */
  datatype ListOutput = ListJson(records: seq<Image>) | ListText(lines: seq<string>)

  /** image_list after the query: JSON mode hands over every record unchanged
      and prints no listing text; text mode prints the listing, so an empty
      result prints nothing. */
  function ImageList(images: seq<Image>, json: bool, showSha256: bool): (r: ListOutput)
    ensures r.ListJson? <==> json
    ensures r.ListJson? ==> r.records == images
    ensures r.ListText? ==> r.lines == ListingLines(images, showSha256)
    ensures r.ListText? ==> (r.lines == [] <==> images == [])
    ensures r.ListText? && images != [] ==> |r.lines| == |images| + 2
  {
    ListingShape(images, showSha256);
    if json then ListJson(images) else ListText(ListingLines(images, showSha256))
  }
}
