/**
  The book administration page (`AdminLibrosComponent`): the image picked
  for upload, the record sent when the book form is saved, and the alert
  shown when deleting a book fails.
*/
module AdminLibros {
  import opened Optional
  import opened Text
  import opened Seqs
  import opened Entities
  import opened Exceptions
  import opened ApiTypes
  import opened Repositories
  import ExceptionHandler
  import AdminController
  import PrestamoRepository
  import FileUpload

  /** The file chosen in the input: its MIME type, its size in bytes and its name. */
  datatype Archivo = Archivo(tipo: string, size: int, nombre: Option<string>)

  /** An alert: its title and its text. */
  datatype Aviso = Aviso(titulo: string, texto: string)

  const MAX_IMAGEN := 5 * 1024 * 1024

  /** The checks of `onFileSelected`: the type first, then the size. */
  function ValidarImagen(file: Archivo): Option<Aviso> {
    if !StartsWith(file.tipo, "image/") then Some(Aviso("Archivo inválido", "Por favor selecciona un archivo de imagen"))
    else if file.size > MAX_IMAGEN then Some(Aviso("Archivo muy grande", "La imagen no puede ser mayor a 5MB"))
    else None
  }

  /**
    The page and the upload endpoint agree: a file the page keeps is stored
    when writing it succeeds, and a file the page refuses would be refused
    by the server too, for the same reason.
  */
  lemma ValidarImagenAgreesWithServer(file: Archivo, uuid: string, writeError: Option<string>)
    ensures ValidarImagen(file).None? ==>
              (FileUpload.UploadImagen(Some(file.tipo), file.size, file.nombre, uuid, writeError).Saved? <==> writeError.None?)
    ensures ValidarImagen(file) == Some(Aviso("Archivo inválido", "Por favor selecciona un archivo de imagen")) ==>
              FileUpload.UploadImagen(Some(file.tipo), file.size, file.nombre, uuid, writeError)
              == FileUpload.BadRequest("El archivo debe ser una imagen")
    ensures ValidarImagen(file) == Some(Aviso("Archivo muy grande", "La imagen no puede ser mayor a 5MB")) ==>
              FileUpload.UploadImagen(Some(file.tipo), file.size, file.nombre, uuid, writeError)
              == FileUpload.BadRequest("La imagen no puede ser mayor a 5MB")
  {
    FileUpload.UploadImagenSpec(Some(file.tipo), file.size, file.nombre, uuid, writeError);
  }

  /** The values of the book form. A control the form leaves empty is `None`. */
  datatype LibroForm = LibroForm(
    titulo: string,
    autor: string,
    descripcion: string,
    imagenUrl: Option<string>,
    cantidadTotal: int,
    cantidadDisponible: int,
    categoriaId: Option<int>)

  /**
    The category of `guardarLibroFinal`: none unless a non-zero id is
    selected, and then the first loaded category with that id, if any.
  */
  function CategoriaElegida(categorias: seq<Categoria>, categoriaId: Option<int>): Option<Categoria> {
    if categoriaId.None? || categoriaId.value == 0 then None
    else
      match IndexWhere(categorias, (c: Categoria) => c.id == categoriaId.value)
      case None => None
      case Some(i) => Some(categorias[i])
  }

  /** The record `guardarLibroFinal` sends. */
  function LibroAGuardar(form: LibroForm, seleccionado: Option<LibroJson>, categorias: seq<Categoria>): LibroJson {
    LibroJson(
      if seleccionado.Some? then seleccionado.value.id else 0,
      form.titulo, form.autor, form.descripcion,
      Some(form.imagenUrl.GetOr("")),
      form.cantidadTotal, form.cantidadDisponible,
      CategoriaElegida(categorias, form.categoriaId))
  }

  /** The request `guardarLibroFinal` makes. */
  datatype OperacionLibro = CrearLibro(libro: LibroJson) | ActualizarLibro(id: int, libro: LibroJson)

  function GuardarLibroFinal(form: LibroForm, modoEdicion: bool, seleccionado: Option<LibroJson>,
                             categorias: seq<Categoria>): OperacionLibro
  {
    var libro := LibroAGuardar(form, seleccionado, categorias);
    if modoEdicion then ActualizarLibro(libro.id, libro) else CrearLibro(libro)
  }

  /**
    The record carries the selected book's id (0 for a new one), the form's
    fields, the image address or "" when there is none, and the category
    loaded with the selected id, or none; it updates in edit mode and
    creates otherwise.
  */
  lemma GuardarLibroFinalSpec(form: LibroForm, modoEdicion: bool, seleccionado: Option<LibroJson>,
                              categorias: seq<Categoria>)
    ensures var op := GuardarLibroFinal(form, modoEdicion, seleccionado, categorias);
            && op.ActualizarLibro? == modoEdicion
            && (op.ActualizarLibro? ==> op.id == op.libro.id)
            && op.libro.id == (if seleccionado.Some? then seleccionado.value.id else 0)
            && op.libro.titulo == form.titulo && op.libro.autor == form.autor
            && op.libro.descripcion == form.descripcion
            && op.libro.cantidadTotal == form.cantidadTotal && op.libro.cantidadDisponible == form.cantidadDisponible
            && op.libro.imagenUrl == Some(if form.imagenUrl.Some? then form.imagenUrl.value else "")
    ensures var c := GuardarLibroFinal(form, modoEdicion, seleccionado, categorias).libro.categoria;
            && (c.Some? ==> form.categoriaId == Some(c.value.id) && c.value in categorias)
            && (c.None? ==> form.categoriaId.None? || form.categoriaId == Some(0)
                            || forall i :: 0 <= i < |categorias| ==> categorias[i].id != form.categoriaId.value)
  {
  }

  /** What pressing "save" does. */
  datatype Guardado = NoEnviado | SubirImagenPrimero | Enviado(operacion: OperacionLibro)

  /**
    `guardarLibro()`: an invalid form sends nothing; a picked image with no
    address yet is uploaded first (the book is saved from the upload's
    callback); otherwise the book is saved at once.
  */
  function AlGuardarLibro(formValido: bool, form: LibroForm, imagenSeleccionada: Option<Archivo>,
                        modoEdicion: bool, seleccionado: Option<LibroJson>, categorias: seq<Categoria>): (g: Guardado)
    ensures !formValido <==> g.NoEnviado?
    ensures g.SubirImagenPrimero? <==> formValido && imagenSeleccionada.Some? && form.imagenUrl.GetOr("") == ""
  {
    if !formValido then NoEnviado
    else if imagenSeleccionada.Some? && (form.imagenUrl.None? || form.imagenUrl.value == "") then SubirImagenPrimero
    else Enviado(GuardarLibroFinal(form, modoEdicion, seleccionado, categorias))
  }

  /** The body of an HTTP error as the page reads it: status, `error.error` and `error.message`. */
  datatype HttpError = HttpError(status: int, error: Option<string>, message: Option<string>)

  /** The alert `eliminarLibro` shows for a failed delete. */
  datatype AlertaEliminar =
    | SinPermisos                           // error "Sin permisos"
    | NoSePuedeEliminar(mensaje: string)    // warning "No se puede eliminar"
    | ErrorAlEliminar(mensaje: string)      // error "Error al eliminar"

  const AVISO_GENERICO :=
    "El libro no puede ser eliminado porque aún se encuentran ejemplares en préstamo con algunos usuarios."

  /** The 403 test: the permission code, or a message about neither copies nor loans. */
  predicate EsErrorDePermisos(err: HttpError) {
    var message := err.message.GetOr("");
    err.status == 403 &&
    (err.error == Some("SIN_PERMISOS") || (!Contains(message, "ejemplar") && !Contains(message, "préstamo")))
  }

  /** The test for a book that still has copies out. */
  predicate EsLibroConPrestamos(err: HttpError) {
    var message := err.message.GetOr("");
    || err.error.GetOr("") == ExceptionHandler.CODIGO_LIBRO_CON_PRESTAMOS
    || Contains(message, ExceptionHandler.CODIGO_LIBRO_CON_PRESTAMOS)
    || Contains(message, "ejemplar(es) en préstamo")
  }

  /** The warning text: what follows the first ':' trimmed, else the fixed sentence, else the message. */
  function TextoAviso(message: string): string {
    ContainsChar(message, ':');
    if Contains(message, ":") then Trim(SecondField(message, ':'))
    else if !Contains(message, "ejemplar") then AVISO_GENERICO
    else message
  }

  /** The error callback of `eliminarLibro(libro)`. */
  function ClasificarErrorEliminar(err: HttpError): AlertaEliminar {
    var message := err.message.GetOr("");
    if EsErrorDePermisos(err) then SinPermisos
    else if EsLibroConPrestamos(err) then NoSePuedeEliminar(TextoAviso(message))
    else ErrorAlEliminar(if message == "" then "Error al eliminar el libro" else message)
  }

  /**
    The permission alert exactly for the 403s the page attributes to the
    role; the warning exactly for the other errors that name the active-loans
    code or the copies on loan; with no ':' and no "ejemplar" in the message
    the warning shows the fixed sentence.
  */
  lemma ClasificarErrorEliminarSpec(err: HttpError)
    ensures ClasificarErrorEliminar(err).SinPermisos? <==> EsErrorDePermisos(err)
    ensures ClasificarErrorEliminar(err).NoSePuedeEliminar? <==> !EsErrorDePermisos(err) && EsLibroConPrestamos(err)
    ensures var message := err.message.GetOr("");
            ClasificarErrorEliminar(err).NoSePuedeEliminar? && !Contains(message, ":") && !Contains(message, "ejemplar") ==>
              ClasificarErrorEliminar(err) == NoSePuedeEliminar(AVISO_GENERICO)
    ensures ClasificarErrorEliminar(err).ErrorAlEliminar? ==>
              ClasificarErrorEliminar(err).mensaje == (if err.message.GetOr("") == "" then "Error al eliminar el libro"
                                                      else err.message.value)
  {
  }

  /** A decimal count holds no colon. */
  lemma DigitsHaveNoColon(n: nat)
    ensures ':' !in NatToString(n)
  {
    var d := NatToString(n);
    assert forall i :: 0 <= i < |d| ==> d[i] != ':';
  }

  /** The server's sentence for `n` copies on loan has no colon and no surrounding blanks. */
  lemma FraseShape(n: nat)
    ensures ':' !in AdminController.FraseLibroConPrestamos(n)
    ensures var f := AdminController.FraseLibroConPrestamos(n);
            f != [] && f[0] == 'E' && f[|f| - 1] == '.'
  {
    DigitsHaveNoColon(n);
  }

  /**
    The warning's text is what follows the first colon, trimmed: after a
    code without a colon, a colon and a space, it is exactly the sentence,
    provided the sentence has no colon and no surrounding blanks.
  */
  lemma TextoAvisoAfterCode(code: string, f: string)
    requires ':' !in code && ':' !in f
    requires f != [] && !IsWhitespace(f[0]) && !IsWhitespace(f[|f| - 1])
    ensures TextoAviso(code + ":" + " " + f) == f
  {
    var m := code + ":" + " " + f;
    assert m == code + [':'] + (" " + f);
    assert m[|code|] == ':' && m[..|code|] == code;
    assert IndexOf(m, ':') == Some(|code|);
    assert m[|code| + 1..] == " " + f;
    ContainsChar(m, ':');
    TrimLeadingSpace(" ", f);
  }

  /**
    For the server's message about `n` copies on loan, the warning's text is
    exactly the sentence with the count, without the code.
  */
  lemma TextoAvisoDelServidor(n: nat)
    ensures TextoAviso(AdminController.MensajeLibroConPrestamos(n)) == AdminController.FraseLibroConPrestamos(n)
  {
    FraseShape(n);
    assert ':' !in ExceptionHandler.CODIGO_LIBRO_CON_PRESTAMOS;
    TextoAvisoAfterCode(ExceptionHandler.CODIGO_LIBRO_CON_PRESTAMOS, AdminController.FraseLibroConPrestamos(n));
  }

  /**
    Across the layers: deleting a book that still has `n` copies out is
    refused by the server with the active-loans code, the exception handler
    keeps the message, and the page shows a warning whose text is the
    server's sentence with the count.
  */
  lemma DeleteBookWithLoansWarns(t: Tables, id: int)
    requires id in t.libros && PrestamoRepository.CountPrestamosActivosByLibroId(t.prestamos, id) > 0
    ensures var n := PrestamoRepository.CountPrestamosActivosByLibroId(t.prestamos, id);
            var r := AdminController.AfterEliminarLibro(t, id).result;
            && r.Err?
            && var resp := ExceptionHandler.Handle(r.error);
               ClasificarErrorEliminar(HttpError(resp.status, Some(resp.error), Some(resp.message)))
               == NoSePuedeEliminar(AdminController.FraseLibroConPrestamos(n))
  {
    var n := PrestamoRepository.CountPrestamosActivosByLibroId(t.prestamos, id);
    var m := AdminController.MensajeLibroConPrestamos(n);
    AdminController.EliminarLibroSpec(t, id);
    var code := ExceptionHandler.CODIGO_LIBRO_CON_PRESTAMOS;
    ContainsAt(m, code, 0);
    var resp := ExceptionHandler.Handle(IllegalState(Some(m)));
    assert resp == ExceptionHandler.ErrorResponse(ExceptionHandler.BAD_REQUEST, code, m);
    ActiveLoansCodeWarns(m);
    TextoAvisoDelServidor(n);
  }

  /** A 400 carrying the active-loans code is shown as a warning with the text `TextoAviso` extracts. */
  lemma ActiveLoansCodeWarns(m: string)
    ensures ClasificarErrorEliminar(HttpError(400, Some(ExceptionHandler.CODIGO_LIBRO_CON_PRESTAMOS), Some(m)))
            == NoSePuedeEliminar(TextoAviso(m))
  {
  }

  /** The handler's fixed sentence has no colon and mentions the copies. */
  lemma MensajeFijoShape()
    ensures ':' !in ExceptionHandler.MENSAJE_LIBRO_CON_PRESTAMOS
    ensures Contains(ExceptionHandler.MENSAJE_LIBRO_CON_PRESTAMOS, "ejemplar")
  {
    var before := "El libro no puede " + "ser eliminado " + "porque aún se " + "encuentran ";
    var piece := "ejemplares en ";
    assert piece[..|"ejemplar"|] == "ejemplar";
    ContainsAt(piece, "ejemplar", 0);
    ContainsWithin(before, piece, "préstamo con ", "ejemplar");
    ContainsInPrefix(before + piece + "préstamo con ", "algunos usuarios.", "ejemplar");
  }

  /**
    A 400 with the active-loans code whose message has no colon but
    mentions the copies is shown as a warning with the message unchanged.
  */
  lemma ActiveLoansMessageShown(message: string)
    requires ':' !in message && Contains(message, "ejemplar")
    ensures ClasificarErrorEliminar(HttpError(400, Some(ExceptionHandler.CODIGO_LIBRO_CON_PRESTAMOS), Some(message)))
            == NoSePuedeEliminar(message)
  {
    ContainsChar(message, ':');
  }

  /**
    A delete the database refuses on the loans' foreign key is reported by
    the handler with its fixed sentence, and the page shows it unchanged.
  */
  lemma IntegrityViolationWarns(message: Option<string>)
    requires ExceptionHandler.ViolaPrestamos(message)
    ensures var resp := ExceptionHandler.Handle(DataIntegrityViolation(message));
            ClasificarErrorEliminar(HttpError(resp.status, Some(resp.error), Some(resp.message)))
            == NoSePuedeEliminar(ExceptionHandler.MENSAJE_LIBRO_CON_PRESTAMOS)
  {
    MensajeFijoShape();
    ActiveLoansMessageShown(ExceptionHandler.MENSAJE_LIBRO_CON_PRESTAMOS);
  }

  /** The page's state. */
  class LibrosPage {
    var modoEdicion: bool
    var libroSeleccionado: Option<LibroJson>
    var imagenSeleccionada: Option<Archivo>
    var subiendoImagen: bool
    var categorias: seq<Categoria>

    constructor ()
      ensures !modoEdicion && libroSeleccionado.None? && imagenSeleccionada.None?
      ensures !subiendoImagen && categorias == []
    {
      modoEdicion := false;
      libroSeleccionado := None;
      imagenSeleccionada := None;
      subiendoImagen := false;
      categorias := [];
    }

    /**
      `onFileSelected(event)`: with no file nothing happens; a refused file
      raises a warning and leaves the previous choice in place; an accepted
      one becomes the selected image.
    */
    method OnFileSelected(file: Option<Archivo>) returns (aviso: Option<Aviso>)
      modifies this
      ensures file.None? ==> aviso.None? && imagenSeleccionada == old(imagenSeleccionada)
      ensures file.Some? ==> aviso == ValidarImagen(file.value)
      ensures file.Some? && aviso.Some? ==> imagenSeleccionada == old(imagenSeleccionada)
      ensures file.Some? && aviso.None? ==> imagenSeleccionada == file
      ensures modoEdicion == old(modoEdicion) && libroSeleccionado == old(libroSeleccionado)
      ensures subiendoImagen == old(subiendoImagen) && categorias == old(categorias)
    {
      aviso := None;
      if file.Some? {
        var f := file.value;
        if !StartsWith(f.tipo, "image/") {
          return Some(Aviso("Archivo inválido", "Por favor selecciona un archivo de imagen"));
        }
        if f.size > 5 * 1024 * 1024 {
          return Some(Aviso("Archivo muy grande", "La imagen no puede ser mayor a 5MB"));
        }
        imagenSeleccionada := file;
      }
    }

    /** `guardarLibro()`: what is sent, and the upload flag raised when the image goes first. */
    method GuardarLibro(formValido: bool, form: LibroForm) returns (g: Guardado)
      modifies this
      ensures g == AlGuardarLibro(formValido, form, imagenSeleccionada, modoEdicion, libroSeleccionado, categorias)
      ensures subiendoImagen == (old(subiendoImagen) || g.SubirImagenPrimero?)
      ensures modoEdicion == old(modoEdicion) && libroSeleccionado == old(libroSeleccionado)
      ensures imagenSeleccionada == old(imagenSeleccionada) && categorias == old(categorias)
    {
      if !formValido {
        return NoEnviado;
      }
      if imagenSeleccionada.Some? {
        if form.imagenUrl.None? || form.imagenUrl.value == "" {
          subiendoImagen := true;
          return SubirImagenPrimero;
        }
      }
      g := Enviado(GuardarLibroFinal(form, modoEdicion, libroSeleccionado, categorias));
    }
  }
}
