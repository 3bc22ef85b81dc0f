/**
  `FileUploadController.uploadImagen`: the checks on an uploaded cover image
  and the name it is stored under. The random UUID and the outcome of
  writing the file are parameters.
*/
module FileUpload {
  import opened Optional
  import opened Text

  /** `5 * 1024 * 1024` bytes. */
  const MAX_BYTES := 5 * 1024 * 1024

  datatype UploadResponse =
    | Saved(url: string, filename: string)   // 200 with `url` and `filename`
    | BadRequest(error: string)              // 400 with `error`
    | ServerError(error: string)             // 500 with `error`

  /** `contentType != null && contentType.startsWith("image/")` */
  predicate IsImage(contentType: Option<string>) {
    contentType.Some? && StartsWith(contentType.value, "image/")
  }

  /** The extension kept from the original name: from its last '.', or nothing. */
  function Extension(originalFilename: Option<string>): (ext: string)
    ensures ext == [] || (ext[0] == '.' && '.' !in ext[1..])
    ensures ext != [] ==> originalFilename.Some? && |ext| <= |originalFilename.value|
                          && originalFilename.value[|originalFilename.value| - |ext|..] == ext
    ensures ext == [] <==> originalFilename.None? || '.' !in originalFilename.value
  {
    ContainsChar(originalFilename.GetOr(""), '.');
    if originalFilename.Some? && Contains(originalFilename.value, ".") then
      originalFilename.value[LastIndexOf(originalFilename.value, '.').value..]
    else
      []
  }

  /**
    `uploadImagen(file)`: `uuid` is the generated `UUID` text and
    `writeError` the message of an `IOException` from storing the file, if any.
  */
  function UploadImagen(contentType: Option<string>, size: int, originalFilename: Option<string>,
                        uuid: string, writeError: Option<string>): UploadResponse
  {
    if !IsImage(contentType) then BadRequest("El archivo debe ser una imagen")
    else if size > MAX_BYTES then BadRequest("La imagen no puede ser mayor a 5MB")
    else
      var filename := uuid + Extension(originalFilename);
      match writeError
      case Some(m) => ServerError("Error al guardar la imagen: " + m)
      case None => Saved("/uploads/" + filename, filename)
  }

  /**
    The type is checked before the size, the limit is inclusive, and a stored
    image is served from `/uploads/` under the generated name plus the
    original extension.
  */
  lemma UploadImagenSpec(contentType: Option<string>, size: int, originalFilename: Option<string>,
                         uuid: string, writeError: Option<string>)
    ensures !IsImage(contentType) ==>
              UploadImagen(contentType, size, originalFilename, uuid, writeError) == BadRequest("El archivo debe ser una imagen")
    ensures IsImage(contentType) && size > MAX_BYTES ==>
              UploadImagen(contentType, size, originalFilename, uuid, writeError) == BadRequest("La imagen no puede ser mayor a 5MB")
    ensures UploadImagen(contentType, size, originalFilename, uuid, writeError).Saved? <==>
              IsImage(contentType) && size <= MAX_BYTES && writeError.None?
    ensures var r := UploadImagen(contentType, size, originalFilename, uuid, writeError);
            r.Saved? ==> r.filename == uuid + Extension(originalFilename) && r.url == "/uploads/" + r.filename
  {
  }

  /** A file of exactly 5 MiB is accepted and one byte more is refused. */
  lemma LimitIsInclusive(originalFilename: Option<string>, uuid: string)
    ensures UploadImagen(Some("image/png"), 5242880, originalFilename, uuid, None).Saved?
    ensures UploadImagen(Some("image/png"), 5242881, originalFilename, uuid, None) == BadRequest("La imagen no puede ser mayor a 5MB")
  {
  }

  /** Only the last extension survives: "portada.final.jpg" is stored as ".jpg". */
  lemma LastExtensionOnly(uuid: string)
    ensures UploadImagen(Some("image/jpeg"), 1, Some("portada.final.jpg"), uuid, None).Saved?
    ensures UploadImagen(Some("image/jpeg"), 1, Some("portada.final.jpg"), uuid, None).filename == uuid + ".jpg"
  {
    var name := "portada.final.jpg";
    assert name[13] == '.';
    assert LastIndexOf(name, '.') == Some(13);
  }
}
