/** src/components/ServiciosVirtuales.jsx: the virtual services page. The
    page copies a fixed list of four services whose first entry is a
    placeholder, replaces that entry according to the `tipo` segment, and
    renders NotFound for any other `tipo`. No route of the application
    renders this page, so `tipo` is modelled as possibly missing. */
module ServiciosVirtuales {
  import opened Wrappers

  datatype Servicio = Servicio(titulo: string, imagen: string, link: string)

  const Placeholder: Servicio := Servicio("SERVICIO_DINAMICO", "IMAGEN_DINAMICA", "LINK_DINAMICO")

  /** `serviciosBase`: the placeholder, then the three services every
      visitor sees. */
  const Base: seq<Servicio> := [
    Placeholder,
    Servicio("Plataforma Virtual",
      "https://www.uno.edu.bo/wp-content/uploads/2025/03/2310700-1-300x300.png",
      "https://virtual.uno.edu.bo"),
    Servicio("Biblioteca Virtual Digitalia",
      "https://www.uno.edu.bo/wp-content/uploads/2025/03/Onlic@2025.jpg",
      "https://www.digitaliapublishing.com"),
    Servicio("Biblioteca Virtual EBSCO",
      "https://www.uno.edu.bo/wp-content/uploads/2025/03/EBSCOhost_logo_CMYK-300x159.png",
      "https://search.ebscohost.com")
  ]

  const Estudiante: Servicio := Servicio("Consulta Tus Notas",
    "https://www.uno.edu.bo/wp-content/uploads/2025/03/IMAGEN-WEB-DIGITAL-300x165.jpg",
    "https://alumno.uno.edu.bo/")

  const Docente: Servicio := Servicio("Sistema Docente UNO",
    "https://cdn-icons-png.flaticon.com/512/3135/3135755.png",
    "https://sistema2.uno.edu.bo/")

  /** `servicios[i] = s` on the copy `[...serviciosBase]`: the copy differs
      from the list only at `i`, and the list itself is a value and stays as
      it was. */
  function Replace(xs: seq<Servicio>, i: nat, s: Servicio): (r: seq<Servicio>)
    requires i < |xs|
    ensures |r| == |xs|
    ensures r[i] == s
    ensures forall j :: 0 <= j < |xs| && j != i ==> r[j] == xs[j]
  {
    xs[i := s]
  }

  datatype View = NotFound(mensaje: string) | Page(titulo: string, servicios: seq<Servicio>)

  /** The `tipo` dispatch: exact, case-sensitive comparisons. */
  function Render(tipo: Option<string>): (v: View)
    ensures v.Page? ==> |v.servicios| == |Base| && v.servicios[1..] == Base[1..]
    ensures tipo == Some("estudiante") ==> v.Page? && v.titulo == "Servicios para Estudiantes" && v.servicios[0] == Estudiante
    ensures tipo == Some("docente") ==> v.Page? && v.titulo == "Servicios para Docentes" && v.servicios[0] == Docente
    ensures v.NotFound? <==> tipo != Some("estudiante") && tipo != Some("docente")
    ensures v.NotFound? ==> v.mensaje == "Ruta no v\U{E1}lida"
  {
    if tipo == Some("estudiante") then
      Page("Servicios para Estudiantes", Replace(Base, 0, Estudiante))
    else if tipo == Some("docente") then
      Page("Servicios para Docentes", Replace(Base, 0, Docente))
    else NotFound("Ruta no v\U{E1}lida")
  }

  /** Whatever the `tipo`, the placeholder entry never reaches the page. */
  lemma PlaceholderNeverRendered(tipo: Option<string>)
    ensures Render(tipo).Page? ==> forall s :: s in Render(tipo).servicios ==> s.titulo != Placeholder.titulo
  {
    var v := Render(tipo);
    if v.Page? {
      forall s | s in v.servicios
        ensures s.titulo != Placeholder.titulo
      {
        var j :| 0 <= j < |v.servicios| && v.servicios[j] == s;
        if j > 0 {
          assert s == Base[j];
        }
      }
    }
  }

  /** The comparison is case-sensitive: a capitalised `tipo` is not a valid
      route. */
  lemma TipoCaseSensitive()
    ensures Render(Some("Estudiante")).NotFound?
    ensures Render(Some("DOCENTE")).NotFound?
  {
  }
}
