/** Which stripper a declared type gets (services/exif.py). */
module Exif {
  import opened Common
  import opened Bytes
  import Jpeg
  import Png

  function Curated(data: seq<Byte>, mime: Option<string>): seq<Byte> {
    if mime == Some("image/jpeg") then Jpeg.Strip(data)
    else if mime == Some("image/png") then Png.Strip(data)
    else data
  }

  /** The curated bytes, and whether anything was removed. */
  method StripMetadata(data: seq<Byte>, mime: Option<string>) returns (cleaned: seq<Byte>, stripped: bool)
    ensures mime == Some("image/jpeg") ==> cleaned == Jpeg.Strip(data)
    ensures mime == Some("image/png") ==> cleaned == Png.Strip(data)
    ensures mime != Some("image/jpeg") && mime != Some("image/png") ==> cleaned == data
    ensures cleaned == Curated(data, mime) && (stripped <==> cleaned != data)
  {
    if mime == Some("image/jpeg") {
      cleaned := Jpeg.StripJpeg(data);
      stripped := cleaned != data;
    } else if mime == Some("image/png") {
      cleaned := Png.StripPng(data);
      stripped := cleaned != data;
    } else {
      cleaned, stripped := data, false;
    }
  }

  /** Stripping the curated copy again finds nothing, exactly unless it is a JPEG whose first pass kept a standalone
      marker last and copied no tail. */
  lemma {:induction false} CuratedIsStableExactly(data: seq<Byte>, mime: Option<string>)
    ensures Curated(data, Some("image/jpeg")) == Jpeg.Strip(data) && Curated(data, Some("image/png")) == Png.Strip(data)
    ensures mime != Some("image/jpeg") && mime != Some("image/png") ==> Curated(data, mime) == data
    ensures Curated(Curated(data, mime), mime) == Curated(data, mime) <==>
      (mime == Some("image/jpeg") && StartsWith(data, Jpeg.SOI) ==> Jpeg.Stable(Jpeg.Parse(data[2..])))
  {
    if mime == Some("image/jpeg") {
      if StartsWith(data, Jpeg.SOI) {
        Jpeg.IdempotentExactly(data);
      }
    } else {
      Png.StripIsIdempotent(data);
    }
  }
}
