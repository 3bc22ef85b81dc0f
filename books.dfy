/**
  The public catalogue page (`BooksComponent`): the list of books as loaded,
  the three filters the reader sets, and the filtered list shown.
*/
module Books {
  import opened Optional
  import opened Text
  import opened Seqs
  import opened ApiTypes

  /** The category select: every category, or one category's id (`parseInt` of the option). */
  datatype FiltroCategoria = Todas | Id(id: int)

  const DISPONIBLES := "DISPONIBLES"
  const NO_DISPONIBLES := "NO_DISPONIBLES"
  const TODOS := "TODOS"

  /** The text searched for: the filter lower-cased, then trimmed. */
  function Busqueda(filtroNombre: string): string {
    Trim(ToLower(filtroNombre))
  }

  /** Title or author contains the search text, both lower-cased. */
  predicate CoincideNombre(busqueda: string, l: LibroJson) {
    Contains(ToLower(l.titulo), busqueda) || Contains(ToLower(l.autor), busqueda)
  }

  function PorNombre(busqueda: string): LibroJson -> bool {
    (l: LibroJson) => CoincideNombre(busqueda, l)
  }

  /** The book has a category, and it is `id`. */
  predicate EnCategoria(id: int, l: LibroJson) {
    l.categoria.Some? && l.categoria.value.id == id
  }

  function PorCategoria(id: int): LibroJson -> bool {
    (l: LibroJson) => EnCategoria(id, l)
  }

  predicate Disponible(l: LibroJson) {
    l.cantidadDisponible > 0
  }

  predicate Agotado(l: LibroJson) {
    l.cantidadDisponible == 0
  }

  /** The name filter: only when the text is not blank. */
  function FiltrarNombre(libros: seq<LibroJson>, filtroNombre: string): seq<LibroJson> {
    if Trim(filtroNombre) != "" then Filter(libros, PorNombre(Busqueda(filtroNombre))) else libros
  }

  /** The category filter: not for "TODAS". */
  function FiltrarCategoria(libros: seq<LibroJson>, filtroCategoria: FiltroCategoria): seq<LibroJson> {
    match filtroCategoria
    case Todas => libros
    case Id(id) => Filter(libros, PorCategoria(id))
  }

  /** The availability filter: any value other than the two named ones filters nothing. */
  function FiltrarDisponibilidad(libros: seq<LibroJson>, filtroDisponibilidad: string): seq<LibroJson> {
    if filtroDisponibilidad == DISPONIBLES then Filter(libros, Disponible)
    else if filtroDisponibilidad == NO_DISPONIBLES then Filter(libros, Agotado)
    else libros
  }

  /** `aplicarFiltros()`: the three `filter` calls in turn. */
  function Filtrar(libros: seq<LibroJson>, filtroNombre: string, filtroCategoria: FiltroCategoria,
                   filtroDisponibilidad: string): seq<LibroJson>
  {
    FiltrarDisponibilidad(FiltrarCategoria(FiltrarNombre(libros, filtroNombre), filtroCategoria), filtroDisponibilidad)
  }

  /** What the name filter asks of one book. */
  function CondNombre(filtroNombre: string): LibroJson -> bool {
    (l: LibroJson) => Trim(filtroNombre) != "" ==> CoincideNombre(Busqueda(filtroNombre), l)
  }

  /** What the category filter asks of one book. */
  function CondCategoria(filtroCategoria: FiltroCategoria): LibroJson -> bool {
    (l: LibroJson) => filtroCategoria.Id? ==> EnCategoria(filtroCategoria.id, l)
  }

  /** What the availability filter asks of one book. */
  function CondDisponibilidad(filtroDisponibilidad: string): LibroJson -> bool {
    (l: LibroJson) =>
      && (filtroDisponibilidad == DISPONIBLES ==> l.cantidadDisponible > 0)
      && (filtroDisponibilidad == NO_DISPONIBLES ==> l.cantidadDisponible == 0)
  }

  function CondNombreYCategoria(filtroNombre: string, filtroCategoria: FiltroCategoria): LibroJson -> bool {
    (l: LibroJson) => CondNombre(filtroNombre)(l) && CondCategoria(filtroCategoria)(l)
  }

  /** Whether one book passes all three filters. */
  predicate Pasa(filtroNombre: string, filtroCategoria: FiltroCategoria, filtroDisponibilidad: string,
                 l: LibroJson)
  {
    && (Trim(filtroNombre) != "" ==> CoincideNombre(Busqueda(filtroNombre), l))
    && (filtroCategoria.Id? ==> EnCategoria(filtroCategoria.id, l))
    && (filtroDisponibilidad == DISPONIBLES ==> l.cantidadDisponible > 0)
    && (filtroDisponibilidad == NO_DISPONIBLES ==> l.cantidadDisponible == 0)
  }

  function Pasan(filtroNombre: string, filtroCategoria: FiltroCategoria, filtroDisponibilidad: string): LibroJson -> bool {
    (l: LibroJson) => Pasa(filtroNombre, filtroCategoria, filtroDisponibilidad, l)
  }

  lemma NombreSpec(libros: seq<LibroJson>, filtroNombre: string)
    ensures FiltrarNombre(libros, filtroNombre) == Filter(libros, CondNombre(filtroNombre))
  {
    if Trim(filtroNombre) != "" {
      FilterEquivalent(libros, PorNombre(Busqueda(filtroNombre)), CondNombre(filtroNombre));
    } else {
      FilterAll(libros, CondNombre(filtroNombre));
    }
  }

  lemma CategoriaSpec(libros: seq<LibroJson>, filtroCategoria: FiltroCategoria)
    ensures FiltrarCategoria(libros, filtroCategoria) == Filter(libros, CondCategoria(filtroCategoria))
  {
    match filtroCategoria {
      case Todas => FilterAll(libros, CondCategoria(filtroCategoria));
      case Id(id) => FilterEquivalent(libros, PorCategoria(id), CondCategoria(filtroCategoria));
    }
  }

  lemma DisponibilidadSpec(libros: seq<LibroJson>, filtroDisponibilidad: string)
    ensures FiltrarDisponibilidad(libros, filtroDisponibilidad) == Filter(libros, CondDisponibilidad(filtroDisponibilidad))
  {
    if filtroDisponibilidad == DISPONIBLES {
      FilterEquivalent(libros, Disponible, CondDisponibilidad(filtroDisponibilidad));
    } else if filtroDisponibilidad == NO_DISPONIBLES {
      FilterEquivalent(libros, Agotado, CondDisponibilidad(filtroDisponibilidad));
    } else {
      FilterAll(libros, CondDisponibilidad(filtroDisponibilidad));
    }
  }

  /**
    The chain of filters keeps, in their original order, exactly the books
    that pass every active filter; a blank name filter, "TODAS" and any
    availability other than the two named filter nothing.
  */
  lemma FiltrarSpec(libros: seq<LibroJson>, filtroNombre: string, filtroCategoria: FiltroCategoria,
                    filtroDisponibilidad: string)
    ensures Filtrar(libros, filtroNombre, filtroCategoria, filtroDisponibilidad)
         == Filter(libros, Pasan(filtroNombre, filtroCategoria, filtroDisponibilidad))
  {
    NombreSpec(libros, filtroNombre);
    CategoriaSpec(FiltrarNombre(libros, filtroNombre), filtroCategoria);
    FilterFilter(libros, CondNombre(filtroNombre), CondCategoria(filtroCategoria),
                 CondNombreYCategoria(filtroNombre, filtroCategoria));
    DisponibilidadSpec(FiltrarCategoria(FiltrarNombre(libros, filtroNombre), filtroCategoria), filtroDisponibilidad);
    FilterFilter(libros, CondNombreYCategoria(filtroNombre, filtroCategoria), CondDisponibilidad(filtroDisponibilidad),
                 Pasan(filtroNombre, filtroCategoria, filtroDisponibilidad));
  }

  /** The filtered list keeps the catalogue's order. */
  lemma FiltrarEnOrden(libros: seq<LibroJson>, filtroNombre: string, filtroCategoria: FiltroCategoria,
                       filtroDisponibilidad: string)
    ensures IsSubsequence(Filtrar(libros, filtroNombre, filtroCategoria, filtroDisponibilidad), libros)
  {
    FiltrarSpec(libros, filtroNombre, filtroCategoria, filtroDisponibilidad);
    FilterIsSubsequence(libros, Pasan(filtroNombre, filtroCategoria, filtroDisponibilidad));
  }

  /** With the filters cleared the whole list is shown, in order. */
  lemma SinFiltros(libros: seq<LibroJson>)
    ensures Filtrar(libros, "", Todas, TODOS) == libros
  {
  }

  /** `getLibrosDisponibles()`: books with at least one copy on the shelf. */
  function LibrosDisponibles(libros: seq<LibroJson>): nat {
    Count(libros, Disponible)
  }

  /**
    Never more books available than books, and as many exactly when every
    book has a copy on the shelf.
  */
  lemma DisponiblesAcotados(libros: seq<LibroJson>)
    ensures LibrosDisponibles(libros) <= |libros|
    ensures LibrosDisponibles(libros) == |libros| <==> forall i :: 0 <= i < |libros| ==> Disponible(libros[i])
    ensures LibrosDisponibles(libros) == |Filtrar(libros, "", Todas, DISPONIBLES)|
  {
    if forall i :: 0 <= i < |libros| ==> Disponible(libros[i]) {
      FilterAll(libros, Disponible);
    } else {
      var i :| 0 <= i < |libros| && !Disponible(libros[i]);
      FilterMisses(libros, Disponible, i);
    }
  }

  /** A filter that rejects some element drops at least that one. */
  lemma {:induction false} FilterMisses(s: seq<LibroJson>, f: LibroJson -> bool, i: nat)
    requires i < |s| && !f(s[i])
    ensures |Filter(s, f)| < |s|
  {
    if i > 0 {
      FilterMisses(s[1..], f, i - 1);
    }
  }

  /** The catalogue page's state. */
  class Catalogo {
    var libros: seq<LibroJson>
    var librosFiltrados: seq<LibroJson>
    var filtroNombre: string
    var filtroCategoria: FiltroCategoria
    var filtroDisponibilidad: string
    var loading: bool
    var error: Option<string>

    /** The page as it opens: nothing loaded, no filter set. */
    constructor ()
      ensures libros == [] && librosFiltrados == []
      ensures filtroNombre == "" && filtroCategoria == Todas && filtroDisponibilidad == TODOS
      ensures !loading && error == None
    {
      libros := [];
      librosFiltrados := [];
      filtroNombre := "";
      filtroCategoria := Todas;
      filtroDisponibilidad := TODOS;
      loading := false;
      error := None;
    }

    /** `aplicarFiltros()` */
    method AplicarFiltros()
      modifies this
      ensures librosFiltrados == Filtrar(libros, filtroNombre, filtroCategoria, filtroDisponibilidad)
      ensures libros == old(libros) && filtroNombre == old(filtroNombre)
      ensures filtroCategoria == old(filtroCategoria) && filtroDisponibilidad == old(filtroDisponibilidad)
      ensures loading == old(loading) && error == old(error)
    {
      var filtrados := libros;
      if Trim(filtroNombre) != "" {
        var busqueda := Trim(ToLower(filtroNombre));
        filtrados := Filter(filtrados, PorNombre(busqueda));
      }
      assert filtrados == FiltrarNombre(libros, filtroNombre);
      if filtroCategoria.Id? {
        filtrados := Filter(filtrados, PorCategoria(filtroCategoria.id));
      }
      assert filtrados == FiltrarCategoria(FiltrarNombre(libros, filtroNombre), filtroCategoria);
      if filtroDisponibilidad == DISPONIBLES {
        filtrados := Filter(filtrados, Disponible);
      } else if filtroDisponibilidad == NO_DISPONIBLES {
        filtrados := Filter(filtrados, Agotado);
      }
      librosFiltrados := filtrados;
    }

    /** `limpiarFiltros()`: every book is shown again. */
    method LimpiarFiltros()
      modifies this
      ensures filtroNombre == "" && filtroCategoria == Todas && filtroDisponibilidad == TODOS
      ensures librosFiltrados == libros && libros == old(libros)
      ensures loading == old(loading) && error == old(error)
    {
      filtroNombre := "";
      filtroCategoria := Todas;
      filtroDisponibilidad := TODOS;
      AplicarFiltros();
      SinFiltros(libros);
    }

    /** `cargarLibros()`: the request goes out. */
    method CargarLibros()
      modifies this
      ensures loading && error == None
      ensures libros == old(libros) && librosFiltrados == old(librosFiltrados)
      ensures filtroNombre == old(filtroNombre) && filtroCategoria == old(filtroCategoria)
      ensures filtroDisponibilidad == old(filtroDisponibilidad)
    {
      loading := true;
      error := None;
    }

    /** The success callback of `cargarLibros()`: the list is replaced and filtered again. */
    method LibrosCargados(nuevos: seq<LibroJson>)
      modifies this
      ensures libros == nuevos && !loading && error == old(error)
      ensures librosFiltrados == Filtrar(nuevos, filtroNombre, filtroCategoria, filtroDisponibilidad)
      ensures filtroNombre == old(filtroNombre) && filtroCategoria == old(filtroCategoria)
      ensures filtroDisponibilidad == old(filtroDisponibilidad)
    {
      libros := nuevos;
      AplicarFiltros();
      loading := false;
    }

    /** The error callback of `cargarLibros()`: the old lists stay. */
    method ErrorAlCargar()
      modifies this
      ensures error == Some("Error al cargar los libros.") && !loading
      ensures libros == old(libros) && librosFiltrados == old(librosFiltrados)
      ensures filtroNombre == old(filtroNombre) && filtroCategoria == old(filtroCategoria)
      ensures filtroDisponibilidad == old(filtroDisponibilidad)
    {
      error := Some("Error al cargar los libros.");
      loading := false;
    }
  }
}
