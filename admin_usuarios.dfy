/**
  The user administration page (`admin-usuarios`): the form that creates
  and edits accounts, the request it sends, and the block/unblock toggle.
  The modal, the table widget and the alerts are not modelled; a form field
  that the page resets to null is the empty string here.
*/
module AdminUsuarios {
  import opened Optional
  import opened Text
  import opened Entities
  import opened ApiTypes
  import opened Repositories
  import AdminController

  /** The values of `usuarioForm`. */
  datatype UsuarioForm = UsuarioForm(
    username: string,
    password: string,
    nombre: string,
    apellido: string,
    email: string,
    rol: string,
    bloqueado: bool)

  /** The form `abrirCrearUsuario` opens: empty, an ordinary unblocked user, no password. */
  const FORM_NUEVO := UsuarioForm("", "", "", "", "", "USUARIO", false)

  /** The form `abrirEditarUsuario(usuario)` opens: the user's fields, the password left blank. */
  function FormDeEdicion(u: UsuarioJson): (f: UsuarioForm)
    ensures f.password == ""
    ensures f.username == u.username && f.nombre == u.nombre && f.apellido == u.apellido
    ensures f.email == u.email && f.rol == u.rol && f.bloqueado == u.bloqueado
  {
    UsuarioForm(u.username, "", u.nombre, u.apellido, u.email, u.rol, u.bloqueado)
  }

  /**
    The form's validators: username, names, email and role are required,
    the email must pass the browser's email check (a parameter here), and
    the password is required only while creating. `Validators.required`
    rejects the empty string and nothing else.
  */
  predicate FormValido(form: UsuarioForm, passwordRequerido: bool, emailValido: string -> bool) {
    && form.username != "" && form.nombre != "" && form.apellido != ""
    && form.email != "" && emailValido(form.email) && form.rol != ""
    && (passwordRequerido ==> form.password != "")
  }

  /** The request `guardarUsuario` sends. */
  datatype OperacionUsuario = CrearUsuario(usuario: UsuarioJson) | ActualizarUsuario(id: int, usuario: UsuarioJson)

  /** The user object built from the form; the password only when it is not blank. */
  function UsuarioAGuardar(form: UsuarioForm, seleccionado: Option<UsuarioJson>): UsuarioJson {
    var id := if seleccionado.Some? then seleccionado.value.id else 0;
    var password := if form.password != "" && Trim(form.password) != "" then Some(form.password) else None;
    UsuarioJson(id, form.username, password, form.nombre, form.apellido, form.email, form.rol, form.bloqueado)
  }

  /** `guardarUsuario()`: nothing is sent for an invalid form. */
  function AlGuardarUsuario(formValido: bool, form: UsuarioForm, modoEdicion: bool,
                            seleccionado: Option<UsuarioJson>): Option<OperacionUsuario>
  {
    if !formValido then None
    else
      var usuario := UsuarioAGuardar(form, seleccionado);
      if modoEdicion then Some(ActualizarUsuario(usuario.id, usuario)) else Some(CrearUsuario(usuario))
  }

  /**
    An invalid form sends nothing. A valid one sends the form's fields
    under the selected user's id (0 without one), with the password exactly
    when it is not blank and then as typed; an update in edit mode, a
    creation otherwise.
  */
  lemma GuardarUsuarioSpec(formValido: bool, form: UsuarioForm, modoEdicion: bool, seleccionado: Option<UsuarioJson>)
    ensures AlGuardarUsuario(formValido, form, modoEdicion, seleccionado).None? <==> !formValido
    ensures var op := AlGuardarUsuario(formValido, form, modoEdicion, seleccionado);
            op.Some? ==>
              var u := op.value.usuario;
              && (op.value.ActualizarUsuario? <==> modoEdicion)
              && (op.value.ActualizarUsuario? ==> op.value.id == u.id)
              && u.id == (if seleccionado.Some? then seleccionado.value.id else 0)
              && u.username == form.username && u.nombre == form.nombre && u.apellido == form.apellido
              && u.email == form.email && u.rol == form.rol && u.bloqueado == form.bloqueado
              && (u.password.Some? <==> Trim(form.password) != "")
              && (u.password.Some? ==> u.password.value == form.password)
  {
    if Trim(form.password) != "" {
      assert form.password != "";
    }
  }

  /**
    Saving the edit form of a user without touching it sends that user back
    unchanged, except that no password is sent.
  */
  lemma EditUnchangedSendsUser(u: UsuarioJson)
    ensures AlGuardarUsuario(true, FormDeEdicion(u), true, Some(u)) == Some(ActualizarUsuario(u.id, u.(password := None)))
  {
  }

  /** `Rol.valueOf`, as Jackson reads the role name; any other name is no role. */
  function RolFromName(name: string): (r: Option<Rol>)
    ensures r.Some? ==> RolName(r.value) == name
  {
    if name == "ADMIN" then Some(ADMIN) else if name == "USUARIO" then Some(USUARIO) else None
  }

  /** The server's reading of the JSON body the page sends. */
  function AsRequest(u: UsuarioJson): AdminController.UsuarioRequest {
    AdminController.UsuarioRequest(u.username, u.password, u.nombre, u.apellido, u.email, RolFromName(u.rol), u.bloqueado)
  }

  /**
    Across the layers: an update sent from the edit form with a blank
    password leaves the stored password as it was; one with a password
    stores its encoding. Either way the other fields are the form's.
  */
  lemma EditKeepsOrReplacesPassword(t: Tables, form: UsuarioForm, u: UsuarioJson, rol: Rol, encode: string -> string)
    requires FindUsuario(t.usuarios, u.id).Some?
    ensures var op := AlGuardarUsuario(true, form, true, Some(u)).value;
            var r := AdminController.AfterActualizarUsuario(t, op.id, AsRequest(op.usuario), rol, encode);
            var i := FindUsuario(t.usuarios, u.id).value;
            r.result.Ok? ==>
              && (Trim(form.password) == "" ==> r.tables.usuarios[i].password == t.usuarios[i].password)
              && (Trim(form.password) != "" ==> r.tables.usuarios[i].password == Some(encode(form.password)))
              && r.tables.usuarios[i].username == form.username
              && r.tables.usuarios[i].email == form.email
              && r.tables.usuarios[i].bloqueado == form.bloqueado
  {
    var op := AlGuardarUsuario(true, form, true, Some(u)).value;
    GuardarUsuarioSpec(true, form, true, Some(u));
    AdminController.ActualizarUsuarioSpec(t, op.id, AsRequest(op.usuario), rol, encode);
  }

  /**
    In create mode the password field is required, yet a password of blanks
    passes `Validators.required` and is then left out of the request, so the
    server creates the account with no password.
  */
  lemma BlankPasswordCreatesUserWithoutPassword(t: Tables, encode: string -> string)
    requires !ExistsByUsername(t.usuarios, "ana") && !ExistsByEmail(t.usuarios, "ana@x.org")
    ensures var form := UsuarioForm("ana", "   ", "Ana", "Ruiz", "ana@x.org", "USUARIO", false);
            var op := AlGuardarUsuario(FormValido(form, true, _ => true), form, false, None);
            && FormValido(form, true, _ => true)
            && op == Some(CrearUsuario(UsuarioJson(0, "ana", None, "Ana", "Ruiz", "ana@x.org", "USUARIO", false)))
            && var r := AdminController.AfterCrearUsuario(t, AsRequest(op.value.usuario), encode);
               r.result.Ok? && r.tables.usuarios[|t.usuarios|].password.None?
  {
    var form := UsuarioForm("ana", "   ", "Ana", "Ruiz", "ana@x.org", "USUARIO", false);
    TrimEmpty(form.password);
    var op := AlGuardarUsuario(true, form, false, None);
    AdminController.CrearUsuarioSpec(t, AsRequest(op.value.usuario), encode);
  }

  /** The validators with the password required as `trim` sees it. */
  predicate FormValidoCorregido(form: UsuarioForm, passwordRequerido: bool, emailValido: string -> bool) {
    FormValido(form, passwordRequerido, emailValido) && (passwordRequerido ==> Trim(form.password) != "")
  }

  /**
    With the password required after trimming, every account created from
    a valid form is stored with the encoding of the password as typed.
  */
  lemma CreatedUserHasPassword(t: Tables, form: UsuarioForm, emailValido: string -> bool, encode: string -> string)
    requires FormValidoCorregido(form, true, emailValido)
    ensures var op := AlGuardarUsuario(true, form, false, None).value;
            var r := AdminController.AfterCrearUsuario(t, AsRequest(op.usuario), encode);
            r.result.Ok? ==> r.tables.usuarios[|t.usuarios|].password == Some(encode(form.password))
  {
    var op := AlGuardarUsuario(true, form, false, None).value;
    GuardarUsuarioSpec(true, form, false, None);
    AdminController.CrearUsuarioSpec(t, AsRequest(op.usuario), encode);
  }

  /** The user `toggleBloqueado(usuario)` sends: the same user with the flag flipped. */
  function ToggleBloqueado(u: UsuarioJson): UsuarioJson {
    u.(bloqueado := !u.bloqueado)
  }

  /**
    Toggling flips the flag and nothing else, and toggling twice gives the
    user back.
  */
  lemma ToggleBloqueadoSpec(u: UsuarioJson)
    ensures ToggleBloqueado(u).bloqueado != u.bloqueado
    ensures ToggleBloqueado(u).(bloqueado := u.bloqueado) == u
    ensures ToggleBloqueado(ToggleBloqueado(u)) == u
  {
  }

  /**
    Across the layers: toggling a user from the list (which the server sends
    without password) blocks or unblocks the stored account and keeps its
    password.
  */
  lemma ToggleKeepsPassword(t: Tables, u: UsuarioJson, rol: Rol, encode: string -> string)
    requires u.password.None? && FindUsuario(t.usuarios, u.id).Some?
    ensures var r := AdminController.AfterActualizarUsuario(t, u.id, AsRequest(ToggleBloqueado(u)), rol, encode);
            var i := FindUsuario(t.usuarios, u.id).value;
            r.result.Ok? ==>
              && r.tables.usuarios[i].bloqueado == !u.bloqueado
              && r.tables.usuarios[i].password == t.usuarios[i].password
  {
    AdminController.ActualizarUsuarioSpec(t, u.id, AsRequest(ToggleBloqueado(u)), rol, encode);
  }

  /** The page's form state. */
  class UsuariosPage {
    var mostrarFormulario: bool
    var modoEdicion: bool
    var usuarioSeleccionado: Option<UsuarioJson>
    var passwordRequerido: bool
    var form: UsuarioForm

    /** The password is required exactly while creating. */
    predicate Valid()
      reads this
    {
      passwordRequerido == !modoEdicion && (modoEdicion <==> usuarioSeleccionado.Some?)
    }

    constructor ()
      ensures Valid() && !mostrarFormulario && !modoEdicion && usuarioSeleccionado.None?
    {
      mostrarFormulario := false;
      modoEdicion := false;
      usuarioSeleccionado := None;
      passwordRequerido := true;
      form := FORM_NUEVO;
    }

    /** `abrirCrearUsuario()` */
    method AbrirCrearUsuario()
      modifies this
      ensures Valid()
      ensures mostrarFormulario && !modoEdicion && usuarioSeleccionado.None?
      ensures passwordRequerido && form == FORM_NUEVO
    {
      modoEdicion := false;
      usuarioSeleccionado := None;
      form := FORM_NUEVO;
      passwordRequerido := true;
      mostrarFormulario := true;
    }

    /** `abrirEditarUsuario(usuario)` */
    method AbrirEditarUsuario(u: UsuarioJson)
      modifies this
      ensures Valid()
      ensures mostrarFormulario && modoEdicion && usuarioSeleccionado == Some(u)
      ensures !passwordRequerido && form == FormDeEdicion(u)
    {
      modoEdicion := true;
      usuarioSeleccionado := Some(u);
      form := FormDeEdicion(u);
      passwordRequerido := false;
      mostrarFormulario := true;
    }

    /** `guardarUsuario()`, given the validators' verdict on the current form. */
    method GuardarUsuario(formValido: bool) returns (op: Option<OperacionUsuario>)
      requires Valid()
      ensures op == AlGuardarUsuario(formValido, form, modoEdicion, usuarioSeleccionado)
      ensures op.Some? ==> (op.value.ActualizarUsuario? <==> modoEdicion)
      ensures op.Some? && op.value.ActualizarUsuario? ==> op.value.id == usuarioSeleccionado.value.id
    {
      if !formValido {
        return None;
      }
      var usuario := UsuarioAGuardar(form, usuarioSeleccionado);
      if modoEdicion {
        op := Some(ActualizarUsuario(usuario.id, usuario));
      } else {
        op := Some(CrearUsuario(usuario));
      }
    }

    /**
      `cerrarModal()`: the form is reset to nulls. Like the component, it
      leaves `modoEdicion` as it was while it clears the selection, so after
      closing an edit `Valid()` holds again only once a modal is reopened.
    */
    method CerrarModal()
      modifies this
      ensures !mostrarFormulario && usuarioSeleccionado.None?
      ensures form == UsuarioForm("", "", "", "", "", "", false)
      ensures modoEdicion == old(modoEdicion) && passwordRequerido == old(passwordRequerido)
    {
      mostrarFormulario := false;
      usuarioSeleccionado := None;
      form := UsuarioForm("", "", "", "", "", "", false);
    }
  }
}
