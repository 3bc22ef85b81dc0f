/**
  `getImagenUrl`, written identically in the catalogue and in the book
  administration page: it turns the `imagenUrl` stored with a book into an
  address the browser can load. The two pages differ only in the inline SVG
  placeholder they show for a book without an image.
*/
module ImageUrls {
  import opened Optional
  import opened Text

  const ORIGEN := "http://localhost:8080"

  /** The catalogue's 300x220 placeholder. */
  const PLACEHOLDER_CATALOGO :=
    "data:image/svg+xml;base64,PHN2ZyB3aWR0aD0iMzAwIiBoZWlnaHQ9IjIyMCIgeG1sbnM9Imh0dHA6Ly93d3cudzMub3JnLzIwMDAvc3ZnIj48cmVjdCB3aWR0aD0iMzAwIiBoZWlnaHQ9IjIyMCIgZmlsbD0iI2RkZCIvPjx0ZXh0IHg9IjE1MCIgeT0iMTEwIiBmb250LWZhbWlseT0iQXJpYWwiIGZvbnQtc2l6ZT0iMTgiIGZpbGw9IiM5OTkiIHRleHQtYW5jaG9yPSJtaWRkbGUiIGR5PSIuM2VtIj5MaWJybzwvdGV4dD48L3N2Zz4="

  /** The administration table's 50x50 placeholder. */
  const PLACEHOLDER_ADMIN :=
    "data:image/svg+xml;base64,PHN2ZyB3aWR0aD0iNTAiIGhlaWdodD0iNTAiIHhtbG5zPSJodHRwOi8vd3d3LnczLm9yZy8yMDAwL3N2ZyI+PHJlY3Qgd2lkdGg9IjUwIiBoZWlnaHQ9IjUwIiBmaWxsPSIjZGRkIi8+PHRleHQgeD0iNTAiIHk9IjUwIiBmb250LWZhbWlseT0iQXJpYWwiIGZvbnQtc2l6ZT0iMTQiIGZpbGw9IiM5OTkiIHRleHQtYW5jaG9yPSJtaWRkbGUiIGR5PSIuM2VtIj5MaWJybzwvdGV4dD48L3N2Zz4="

  /** An absolute address: the browser loads it as it is. */
  predicate Absoluta(u: string) {
    StartsWith(u, "http://") || StartsWith(u, "https://")
  }

  /** `getImagenUrl(imagenUrl)`; a missing and an empty value are both falsy. */
  function ImagenUrl(imagenUrl: Option<string>, placeholder: string): string {
    match imagenUrl
    case None => placeholder
    case Some(u) =>
      if u == "" then placeholder
      else if Absoluta(u) then u
      else if StartsWith(u, "/") then (if Contains(u, "localhost:8080") then u else ORIGEN + u)
      else u
  }

  /**
    The four cases: the placeholder for no image, an absolute address
    unchanged, a server path prefixed with the API origin unless it already
    names it, and anything else unchanged.
  */
  lemma ImagenUrlSpec(imagenUrl: Option<string>, placeholder: string)
    ensures imagenUrl.None? || imagenUrl == Some("") ==> ImagenUrl(imagenUrl, placeholder) == placeholder
    ensures imagenUrl.Some? && imagenUrl.value != "" ==>
              var u := imagenUrl.value;
              && (Absoluta(u) ==> ImagenUrl(imagenUrl, placeholder) == u)
              && (!Absoluta(u) && StartsWith(u, "/") && !Contains(u, "localhost:8080") ==>
                    ImagenUrl(imagenUrl, placeholder) == ORIGEN + u)
              && (!Absoluta(u) && !(StartsWith(u, "/") && !Contains(u, "localhost:8080")) ==>
                    ImagenUrl(imagenUrl, placeholder) == u)
  {
  }

  /**
    Normalising is idempotent: an address the function produced for a
    stored image comes back unchanged, because a prefixed path is absolute.
  */
  lemma ImagenUrlIdempotent(u: string, placeholder: string)
    requires u != ""
    ensures ImagenUrl(Some(ImagenUrl(Some(u), placeholder)), placeholder) == ImagenUrl(Some(u), placeholder)
  {
    if !Absoluta(u) && StartsWith(u, "/") && !Contains(u, "localhost:8080") {
      assert (ORIGEN + u)[..|"http://"|] == "http://";
    }
  }

  /**
    The address the upload endpoint returns for a stored file is served
    from the API origin.
  */
  lemma UploadedImageUrl(filename: string, placeholder: string)
    requires !Contains("/uploads/" + filename, "localhost:8080")
    ensures ImagenUrl(Some("/uploads/" + filename), placeholder) == ORIGEN + "/uploads/" + filename
  {
    var u := "/uploads/" + filename;
    assert u[..1] == "/";
    assert u[0] == '/';
    assert !StartsWith(u, "http://") && !StartsWith(u, "https://");
  }
}
