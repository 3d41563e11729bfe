/** src/components/inteaccion.jsx: the program pages of a campus. The page
    finds the campus and then the program with the full slug, builds the
    program links from the slugs of the campus segment and of the program
    titles, and highlights the button of the program on display. No route of
    src/App.jsx renders this page, so it is modelled with segments that may
    be missing; this normaliser calls `normalize` on its argument, so a
    missing segment throws as soon as a search compares against it. */
module Interaccion {
  import opened Wrappers
  import opened Js
  import opened Text

  /** `normalizeText`: NFD, drop U+0300..U+036F, drop `\s+`, lowercase. */
  function NormalizeText(text: string): (r: string)
    ensures IsCanonical(r)
  {
    CanonicalIsCanonical(text);
    LowerStr(RemoveSpace(StripMarks(Nfd(text))))
  }

  lemma NormalizeTextIdempotent(text: string)
    ensures NormalizeText(NormalizeText(text)) == NormalizeText(text)
  {
    CanonicalIdempotent(text);
  }

  /** `normalizeText(v)` for a data value: only strings have `normalize`. */
  function NormalizeValue(v: Value): (r: Outcome<string>)
    ensures r.Ok? <==> v.Str?
    ensures r.Ok? ==> r.value == NormalizeText(v.s)
  {
    if v.Str? then Ok(NormalizeText(v.s)) else Fail(TypeError)
  }

  /** `normalizeText(seg)` for a route segment: `undefined.normalize` throws. */
  function NormalizeSegment(seg: Option<string>): (r: Outcome<string>)
    ensures r.Ok? <==> seg.Some?
    ensures r.Ok? ==> r.value == NormalizeText(seg.value)
  {
    match seg
    case None => Fail(TypeError)
    case Some(s) => Ok(NormalizeText(s))
  }

  /** `Object.keys(dataJson).find((key) => normalizeText(key) === normalizeText(sede))`:
      the callback normalises the segment for every key it tries, so a
      missing segment throws unless there is no key at all. */
  function FindSede(tree: Tree, sede: Option<string>): (r: Outcome<Option<string>>)
    ensures r.Fail? <==> sede.None? && |tree| > 0
    ensures sede.None? && |tree| == 0 ==> r == Ok(None)
    ensures sede.Some? ==>
      (r.value.None? <==> forall i :: 0 <= i < |tree| ==> NormalizeText(tree[i].key) != NormalizeText(sede.value))
    ensures sede.Some? && r.value.Some? ==> NormalizeText(r.value.value) == NormalizeText(sede.value)
  {
    match sede
    case None => if |tree| == 0 then Ok(None) else Fail(TypeError)
    case Some(seg) =>
      var target := NormalizeText(seg);
      Ok(FindKey(tree, (key: string) => NormalizeText(key) == target))
  }

  /** `(item) => normalizeText(item.titulo) === normalizeText(programa)`,
      given the outcome of normalising the program segment: throws on a
      nullish item, on a title that is not a string, and, after reading the
      title, when normalising the segment throws. */
  function TituloIs(target: Outcome<string>): Value -> Outcome<bool> {
    (item: Value) =>
      if Nullish(item) then Fail(TypeError)
      else
        match NormalizeValue(OptGet(item, "titulo"))
        case Fail(e) => Fail(e)
        case Ok(t) =>
          match target
          case Fail(e) => Fail(e)
          case Ok(p) => Ok(t == p)
  }

  /** With the program segment missing, every item makes the search throw. */
  lemma TituloIsWithoutSegment(item: Value)
    ensures TituloIs(NormalizeSegment(None))(item).Fail?
  {
  }

  /** The record found and the program found, before any message is chosen. */
  datatype Lookup = Lookup(sedeInfo: Value, contenido: Value)

  /** `sedeInfo`, `interaccionArray = sedeInfo?.interaccion || []` and
      `contenido = interaccionArray.find(...)`: the program search runs before
      either check, on an empty list when the campus is missing. */
  function Find(tree: Tree, sede: Option<string>, programa: Option<string>): (r: Outcome<Lookup>)
    ensures FindSede(tree, sede).Fail? ==> r.Fail?
    ensures r.Ok? ==> FindSede(tree, sede).Ok? && r.value.sedeInfo == Pick(tree, FindSede(tree, sede).value)
    ensures FindSede(tree, sede).Ok? && !Truthy(OptGet(Pick(tree, FindSede(tree, sede).value), "interaccion")) ==>
      r == Ok(Lookup(Pick(tree, FindSede(tree, sede).value), Undefined))
  {
    var key :- FindSede(tree, sede);
    var sedeInfo := Pick(tree, key);
    var programas := Or(OptGet(sedeInfo, "interaccion"), Arr([]));
    var contenido :- ArrayFind(programas, TituloIs(NormalizeSegment(programa)));
    Ok(Lookup(sedeInfo, contenido))
  }

  /** The campus record the page reads for a present segment. */
  function SedeInfo(tree: Tree, sede: string): Value {
    Pick(tree, FindSede(tree, Some(sede)).value)
  }

  /** The program shown is the first whose title slug is the segment's slug. */
  lemma FindFirstPrograma(tree: Tree, sede: string, programa: string, j: nat)
    requires var items := OptGet(SedeInfo(tree, sede), "interaccion");
      && items.Arr? && j < |items.items|
      && TituloIs(NormalizeSegment(Some(programa)))(items.items[j]) == Ok(true)
      && forall k :: 0 <= k < j ==> TituloIs(NormalizeSegment(Some(programa)))(items.items[k]) == Ok(false)
    ensures Find(tree, Some(sede), Some(programa)) == Ok(Lookup(SedeInfo(tree, sede), OptGet(SedeInfo(tree, sede), "interaccion").items[j]))
  {
    var programas := OptGet(SedeInfo(tree, sede), "interaccion");
    var test := TituloIs(NormalizeSegment(Some(programa)));
    assert Or(programas, Arr([])) == programas;
    FindThrowingFirst(programas.items, test, j);
    assert ArrayFind(programas, test) == Ok(programas.items[j]);
  }

  datatype View = NotFound(mensaje: string) | Page(sedeInfo: Value, contenido: Value)

  function SedeNoEncontrada(sede: Option<string>): string {
    "Sede \"" + SegmentText(sede) + "\" no encontrada"
  }

  function ProgramaNoEncontrado(programa: Option<string>): string {
    "Programa \"" + SegmentText(programa) + "\" no encontrado"
  }

  /** The campus check comes first and names the campus; the program check
      names the program; a campus and a program that both exist render the
      page with them. */
  function Render(tree: Tree, sede: Option<string>, programa: Option<string>): (r: Outcome<View>)
    ensures r.Fail? <==> Find(tree, sede, programa).Fail?
    ensures r.Ok? ==> var found := Find(tree, sede, programa).value;
      && (!Truthy(found.sedeInfo) ==> r.value == NotFound(SedeNoEncontrada(sede)))
      && (Truthy(found.sedeInfo) && !Truthy(found.contenido) ==> r.value == NotFound(ProgramaNoEncontrado(programa)))
      && (Truthy(found.sedeInfo) && Truthy(found.contenido) ==> r.value == Page(found.sedeInfo, found.contenido))
  {
    var found :- Find(tree, sede, programa);
    if !Truthy(found.sedeInfo) then Ok(NotFound(SedeNoEncontrada(sede)))
    else if !Truthy(found.contenido) then Ok(NotFound(ProgramaNoEncontrado(programa)))
    else Ok(Page(found.sedeInfo, found.contenido))
  }

  /** A missing campus is reported as such, never as a missing program. */
  lemma MissingSedeReportedFirst(tree: Tree, sede: Option<string>, programa: Option<string>)
    requires FindSede(tree, sede) == Ok(None)
    ensures Render(tree, sede, programa) == Ok(NotFound(SedeNoEncontrada(sede)))
  {
  }

  /** The page appears only when both segments are present: a missing campus
      segment either throws or finds no campus, and a missing program segment
      either throws or finds no program. */
  lemma PageHasSegments(tree: Tree, sede: Option<string>, programa: Option<string>)
    requires Render(tree, sede, programa).Ok? && Render(tree, sede, programa).value.Page?
    ensures sede.Some? && programa.Some?
  {
    var found := Find(tree, sede, programa).value;
    assert Truthy(found.sedeInfo) && Truthy(found.contenido);
    var programas := Or(OptGet(found.sedeInfo, "interaccion"), Arr([]));
    if programa.None? {
      var r := FindThrowing(programas.items, TituloIs(NormalizeSegment(programa)));
      assert r.Ok? && r.value.Some?;
      TituloIsWithoutSegment(programas.items[r.value.value]);
      assert false;
    }
  }

  /** A campus found with a truthy first matching program renders the page
      with that campus record and that program. */
  lemma ShowsFirstPrograma(tree: Tree, sede: string, programa: string, j: nat)
    requires Truthy(SedeInfo(tree, sede))
    requires var items := OptGet(SedeInfo(tree, sede), "interaccion");
      && items.Arr? && j < |items.items| && Truthy(items.items[j])
      && TituloIs(NormalizeSegment(Some(programa)))(items.items[j]) == Ok(true)
      && forall k :: 0 <= k < j ==> TituloIs(NormalizeSegment(Some(programa)))(items.items[k]) == Ok(false)
    ensures Render(tree, Some(sede), Some(programa)) ==
      Ok(Page(SedeInfo(tree, sede), OptGet(SedeInfo(tree, sede), "interaccion").items[j]))
  {
    FindFirstPrograma(tree, sede, programa, j);
  }

  /** `handleProgramaClick(progTitulo)`: the slug of the campus segment and
      the slug of the program title. */
  /** The route segment under which a campus lists its programs. */
  const ProgramSegment: string := "interaccion"

  function ProgramPath(sede: string, titulo: Value): (r: Outcome<string>)
    ensures r.Ok? <==> titulo.Str?
    ensures r.Ok? ==> var a, b := NormalizeText(sede), NormalizeText(titulo.s);
      |r.value| == |a| + |b| + 14 && r.value[1..|a| + 1] == a && r.value[|a| + 14..] == b
  {
    var t :- NormalizeValue(titulo);
    var a := NormalizeText(sede);
    var path := "/" + a + "/" + ProgramSegment + "/" + t;
    assert path[1..|a| + 1] == a;
    assert path[|a| + 14..] == t;
    Ok(path)
  }

  /** The link of a program resolves back to what the current page would
      resolve: its segments are slugs, and the slug is idempotent, so the
      campus and program searches see the same targets. */
  lemma ProgramPathResolvesBack(tree: Tree, sede: string, titulo: string)
    ensures Find(tree, Some(NormalizeText(sede)), Some(NormalizeText(titulo))) == Find(tree, Some(sede), Some(titulo))
  {
    NormalizeTextIdempotent(sede);
    NormalizeTextIdempotent(titulo);
  }

  /** The button background test `normalizeText(programa) ===
      normalizeText(prog.titulo)`, on the page, where the program segment is
      present. */
  function IsActive(programa: string, prog: Value): (r: Outcome<bool>)
    ensures r == TituloIs(NormalizeSegment(Some(programa)))(prog)
  {
    if Nullish(prog) then Fail(TypeError)
    else
      var t :- NormalizeValue(OptGet(prog, "titulo"));
      Ok(NormalizeText(programa) == t)
  }

  /** The program on display has its button highlighted, and so does every
      program sharing its title slug. */
  lemma ShownProgramIsActive(tree: Tree, sede: Option<string>, programa: Option<string>)
    requires Render(tree, sede, programa).Ok? && Render(tree, sede, programa).value.Page?
    ensures programa.Some? && IsActive(programa.value, Render(tree, sede, programa).value.contenido) == Ok(true)
  {
    PageHasSegments(tree, sede, programa);
    var found := Find(tree, sede, programa).value;
    var programas := Or(OptGet(found.sedeInfo, "interaccion"), Arr([]));
    var r := FindThrowing(programas.items, TituloIs(NormalizeSegment(programa)));
    assert r.Ok? && r.value.Some?;
  }
}
