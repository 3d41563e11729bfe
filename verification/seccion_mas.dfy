/** src/components/SeccionMas.jsx: the pages of the "Más" menu of a campus.
    The route `/:sede/mas/:seccion` always supplies both segments, so they are
    plain strings here. The page finds the campus with the full slug, reads
    its `mas` block, and either builds the combined mission / vision /
    philosophy list or dispatches the normalised segment to one of four
    fields. */
module SeccionMas {
  import opened Wrappers
  import opened Js
  import opened Text

  // ---------------------------------------------------------------------------
  // Text helpers
  // ---------------------------------------------------------------------------

  /** `capitalize(text = "")`: a missing argument is "", a string gets its
      first character uppercased, and any other value has no `charAt`. */
  function Capitalize(text: Value): (r: Outcome<string>)
    ensures text.Undefined? ==> r == Ok("")
    ensures text.Str? ==> r.Ok? && |r.value| == |text.s|
    ensures text.Str? && |text.s| > 0 ==> r.value[0] == Upper(text.s[0]) && r.value[1..] == text.s[1..]
    ensures r.Fail? <==> !text.Undefined? && !text.Str?
  {
    match text
    case Undefined => Ok("")
    case Str(s) => Ok(UpperFirst(s))
    case _ => Fail(TypeError)
  }

  /** `normalizeText`: NFD, drop U+0300..U+036F, drop `\s+`, lowercase. */
  function NormalizeText(text: string): (r: string)
    ensures IsCanonical(r)
    ensures IsCanonical(text) ==> r == text
  {
    CanonicalIsCanonical(text);
    CanonicalFixedPoints(text);
    LowerStr(RemoveSpace(StripMarks(Nfd(text))))
  }

  function FindSede(tree: Tree, sede: string): (k: Option<string>)
    ensures k.None? <==> forall i :: 0 <= i < |tree| ==> NormalizeText(tree[i].key) != NormalizeText(sede)
    ensures k.Some? ==> NormalizeText(k.value) == NormalizeText(sede)
  {
    var target := NormalizeText(sede);
    FindKey(tree, (key: string) => NormalizeText(key) == target)
  }

  // ---------------------------------------------------------------------------
  // The combined mission / vision / philosophy list
  // ---------------------------------------------------------------------------

  /** `(item) => item.titulo.toLowerCase().includes(sub)`: throws unless the
      item has a string `titulo`. */
  function TitleIncludes(sub: string): Value -> Outcome<bool> {
    (item: Value) =>
      var t := OptGet(item, "titulo");
      if t.Str? then Ok(Contains(LowerStr(t.s), sub)) else Fail(TypeError)
  }

  /** `bloque.misionvision?.find(test)?.contenido || ""`. */
  function Apartado(misionvision: Value, sub: string): (r: Outcome<Value>)
    ensures Nullish(misionvision) ==> r == Ok(Str(""))
    ensures r.Ok? ==> Truthy(r.value) || r.value == Str("")
    ensures r.Fail? ==> !Nullish(misionvision)
  {
    if Nullish(misionvision) then Ok(Str(""))
    else
      var found :- ArrayFind(misionvision, TitleIncludes(sub));
      Ok(Or(OptGet(found, "contenido"), Str("")))
  }

  /** The entry taken is the first item whose lowercased title contains the
      fragment, and its content defaults to "". */
  lemma ApartadoFirstMatch(items: seq<Value>, sub: string, j: nat)
    requires j < |items| && TitleIncludes(sub)(items[j]) == Ok(true)
    requires forall k :: 0 <= k < j ==> TitleIncludes(sub)(items[k]) == Ok(false)
    ensures Apartado(Arr(items), sub) == Ok(Or(OptGet(items[j], "contenido"), Str("")))
  {
    FindThrowingFirst(items, TitleIncludes(sub), j);
  }

  /** No title containing the fragment leaves the entry's content "". */
  lemma ApartadoNoMatch(items: seq<Value>, sub: string)
    requires forall k :: 0 <= k < |items| ==> TitleIncludes(sub)(items[k]) == Ok(false)
    ensures Apartado(Arr(items), sub) == Ok(Str(""))
  {
  }

  const TituloMision: string := "Misi\U{F3}n"
  const TituloVision: string := "Visi\U{F3}n"
  const TituloFilosofia: string := "Filosof\U{ED}a"
  const TituloUnificado: string := "Misi\U{F3}n, Visi\U{F3}n y Filosof\U{ED}a"

  function Entry(titulo: string, contenido: Value): Value {
    Obj([Prop("titulo", Str(titulo)), Prop("contenido", contenido)])
  }

  lemma EntryFields(titulo: string, contenido: Value)
    ensures OptGet(Entry(titulo, contenido), "titulo") == Str(titulo)
    ensures OptGet(Entry(titulo, contenido), "contenido") == contenido
  {
    var props := Entry(titulo, contenido).props;
    assert props[0].key == "titulo" && props[1].key == "contenido";
    assert props[0].key != "contenido";
  }

  /** The three entries of the combined list, titled Misión, Visión and
      Filosofía in that order, each holding its content. */
  function Lista(mision: Value, vision: Value, filosofia: Value): (v: Value)
    ensures v.Arr? && |v.items| == 3
    ensures OptGet(v.items[0], "titulo") == Str(TituloMision) && OptGet(v.items[0], "contenido") == mision
    ensures OptGet(v.items[1], "titulo") == Str(TituloVision) && OptGet(v.items[1], "contenido") == vision
    ensures OptGet(v.items[2], "titulo") == Str(TituloFilosofia) && OptGet(v.items[2], "contenido") == filosofia
  {
    EntryFields(TituloMision, mision);
    EntryFields(TituloVision, vision);
    EntryFields(TituloFilosofia, filosofia);
    Arr([Entry(TituloMision, mision), Entry(TituloVision, vision), Entry(TituloFilosofia, filosofia)])
  }

  /** `contenidoUnificado`: the list of the Misión and Visión entries found in
      `misionvision` and the `filosofia` content, none of them missing. */
  function Unificado(bloque: Value): (r: Outcome<Value>)
    ensures r.Fail? <==>
      Apartado(OptGet(bloque, "misionvision"), "misi").Fail? || Apartado(OptGet(bloque, "misionvision"), "visi").Fail?
    ensures r.Ok? ==>
      var filosofia := Or(OptGet(OptGet(bloque, "filosofia"), "contenido"), Str(""));
      && !Nullish(filosofia)
      && r.value == Lista(Apartado(OptGet(bloque, "misionvision"), "misi").value,
                          Apartado(OptGet(bloque, "misionvision"), "visi").value,
                          filosofia)
  {
    var mision :- Apartado(OptGet(bloque, "misionvision"), "misi");
    var vision :- Apartado(OptGet(bloque, "misionvision"), "visi");
    Ok(Lista(mision, vision, Or(OptGet(OptGet(bloque, "filosofia"), "contenido"), Str(""))))
  }

  // ---------------------------------------------------------------------------
  // Section dispatch and the page
  // ---------------------------------------------------------------------------

  /** The IIFE `switch (normalizeText(seccion))`. */
  function Seccion(bloque: Value, key: string): (v: Value)
    ensures key !in ["bienvenida", "historia", "reglamento", "autoridades"] ==> v == Null
    ensures key in ["bienvenida", "historia", "reglamento", "autoridades"] ==> v == OptGet(bloque, key)
  {
    if key == "bienvenida" then OptGet(bloque, "bienvenida")
    else if key == "historia" then OptGet(bloque, "historia")
    else if key == "reglamento" then OptGet(bloque, "reglamento")
    else if key == "autoridades" then OptGet(bloque, "autoridades")
    else Null
  }

  predicate IsUnificado(seccion: string) {
    seccion == "misionvision" || seccion == "filosofia"
  }

  /** What the page decides before it renders a message: no campus, no `mas`
      block, a falsy content (with the values the message is built from), or
      the heading and content to show. */
  datatype Resolution =
    | NoSede
    | NoMas
    | Missing(sedeInfo: Value, contenido: Value)
    | Found(titulo: string, contenido: Value)

  /** `sedeKey ? dataJson[sedeKey] : null`. */
  function SedeInfo(tree: Tree, sede: string): Value {
    Pick(tree, FindSede(tree, sede))
  }

  /** Everything the page does once `sedeInfo` is known: the campus check,
      the `mas` check, then the section. */
  function Resolve(sedeInfo: Value, seccion: string): (r: Outcome<Resolution>)
    ensures !Truthy(sedeInfo) ==> r == Ok(NoSede)
    ensures Truthy(sedeInfo) && !Truthy(OptGet(sedeInfo, "mas")) ==> r == Ok(NoMas)
    ensures r.Ok? && r.value.Missing? ==> !Truthy(r.value.contenido) && r.value.sedeInfo == sedeInfo
    ensures r.Ok? && r.value.Found? ==> Truthy(r.value.contenido)
    ensures r.Ok? && r.value.Found? && IsUnificado(seccion) ==> r.value.titulo == TituloUnificado
    ensures r.Ok? && (r.value.Missing? || r.value.Found?) && !IsUnificado(seccion) ==>
      r.value.contenido == Seccion(OptGet(sedeInfo, "mas"), NormalizeText(seccion))
    ensures Truthy(sedeInfo) && Truthy(OptGet(sedeInfo, "mas")) && r.Ok? ==>
      r.value.Missing? || r.value.Found?
    ensures IsUnificado(seccion) ==>
      (r.Fail? <==> Truthy(sedeInfo) && Truthy(OptGet(sedeInfo, "mas")) && Unificado(OptGet(sedeInfo, "mas")).Fail?)
    ensures !IsUnificado(seccion) ==>
      var c := Seccion(OptGet(sedeInfo, "mas"), NormalizeText(seccion));
      var t := OptGet(c, "titulo");
      (r.Fail? <==> Truthy(sedeInfo) && Truthy(OptGet(sedeInfo, "mas")) && Truthy(c) && Truthy(t) && !t.Str?)
    ensures !IsUnificado(seccion) && Truthy(sedeInfo) && Truthy(OptGet(sedeInfo, "mas")) && r.Ok? ==>
      (r.value.Found? <==> Truthy(Seccion(OptGet(sedeInfo, "mas"), NormalizeText(seccion))))
  {
    var bloque := OptGet(sedeInfo, "mas");
    if !Truthy(sedeInfo) then Ok(NoSede)
    else if !Truthy(bloque) then Ok(NoMas)
    else
      var contenido :- if IsUnificado(seccion) then Unificado(bloque) else Ok(Seccion(bloque, NormalizeText(seccion)));
      if !Truthy(contenido) then Ok(Missing(sedeInfo, contenido))
      else
        var titulo :- if IsUnificado(seccion) then Ok(TituloUnificado)
                      else Capitalize(Or(OptGet(contenido, "titulo"), Str(seccion)));
        Ok(Found(titulo, contenido))
  }

  /** The combined list is an array, so it never reaches NotFound: once the
      campus and its block exist the page shows it under the fixed heading,
      unless reading a `misionvision` title throws. */
  lemma UnificadoNeverMissing(sedeInfo: Value, seccion: string)
    requires IsUnificado(seccion)
    requires Truthy(sedeInfo) && Truthy(OptGet(sedeInfo, "mas"))
    ensures var r := Resolve(sedeInfo, seccion);
      r.Fail? || (r.value.Found? && r.value.titulo == TituloUnificado && r.value.contenido.Arr?)
  {
    var u := Unificado(OptGet(sedeInfo, "mas"));
    if u.Ok? {
      assert u.value.Arr? && Truthy(u.value);
      assert Resolve(sedeInfo, seccion) == Ok(Found(TituloUnificado, u.value));
    }
  }

  /** The heading of a found section is its `titulo` capitalised, falling back
      to the raw segment when the title is falsy. */
  lemma HeadingOfSeccion(sedeInfo: Value, seccion: string)
    requires !IsUnificado(seccion)
    requires var r := Resolve(sedeInfo, seccion); r.Ok? && r.value.Found?
    ensures var r := Resolve(sedeInfo, seccion);
      var t := OptGet(r.value.contenido, "titulo");
      && (!Truthy(t) ==> r.value.titulo == UpperFirst(seccion))
      && (t.Str? && t.s != "" ==> r.value.titulo == UpperFirst(t.s))
  {
  }

  datatype View =
    | SedeNoEncontrada
    | SinMas
    | NotFound(mensaje: string)
    | Page(titulo: string, contenido: Value)

  /** The NotFound message as written: it interpolates the campus record and
      the falsy content. */
  function Mensaje(sedeInfo: Value, contenido: Value): string {
    "En la sede \"" + ToStr(sedeInfo) + "\" no existe el apartado \"" + ToStr(contenido) + "\"."
  }

  function ViewOf(res: Resolution, mensaje: string): View {
    match res
    case NoSede => SedeNoEncontrada
    case NoMas => SinMas
    case Missing(_, _) => NotFound(mensaje)
    case Found(titulo, contenido) => Page(titulo, contenido)
  }

  /** The page as written, once `sedeInfo` is known. */
  function RenderIn(sedeInfo: Value, seccion: string): (r: Outcome<View>)
    ensures r.Fail? <==> Resolve(sedeInfo, seccion).Fail?
    ensures r.Ok? ==> (r.value.NotFound? <==> Resolve(sedeInfo, seccion).value.Missing?)
    ensures r.Ok? && r.value.NotFound? ==>
      r.value.mensaje == Mensaje(sedeInfo, Resolve(sedeInfo, seccion).value.contenido)
    ensures r.Ok? ==> (r.value == SedeNoEncontrada <==> !Truthy(sedeInfo))
    ensures r.Ok? ==> (r.value == SinMas <==> Truthy(sedeInfo) && !Truthy(OptGet(sedeInfo, "mas")))
    ensures r.Ok? && Resolve(sedeInfo, seccion).value.Found? ==>
      r.value == Page(Resolve(sedeInfo, seccion).value.titulo, Resolve(sedeInfo, seccion).value.contenido)
  {
    var res :- Resolve(sedeInfo, seccion);
    Ok(ViewOf(res, if res.Missing? then Mensaje(res.sedeInfo, res.contenido) else ""))
  }

  /** The page as written. */
  function Render(tree: Tree, sede: string, seccion: string): Outcome<View> {
    RenderIn(SedeInfo(tree, sede), seccion)
  }

  /** An unknown section of a campus whose `mas` block exists resolves to a
      missing content of `null`. */
  lemma UnknownSeccionMissing(sedeInfo: Value, seccion: string)
    requires Truthy(sedeInfo) && Truthy(OptGet(sedeInfo, "mas"))
    requires !IsUnificado(seccion)
    requires NormalizeText(seccion) !in ["bienvenida", "historia", "reglamento", "autoridades"]
    ensures Resolve(sedeInfo, seccion) == Ok(Missing(sedeInfo, Null))
  {
    assert Seccion(OptGet(sedeInfo, "mas"), NormalizeText(seccion)) == Null;
  }

  /** A known section whose content is truthy reaches the page, headed by its
      `titulo` capitalised, or by the raw segment capitalised when the title
      is falsy. */
  lemma KnownSeccionShown(sedeInfo: Value, seccion: string)
    requires Truthy(sedeInfo) && Truthy(OptGet(sedeInfo, "mas"))
    requires !IsUnificado(seccion)
    requires NormalizeText(seccion) in ["bienvenida", "historia", "reglamento", "autoridades"]
    requires var c := OptGet(OptGet(sedeInfo, "mas"), NormalizeText(seccion));
      Truthy(c) && (Truthy(OptGet(c, "titulo")) ==> OptGet(c, "titulo").Str?)
    ensures var c := OptGet(OptGet(sedeInfo, "mas"), NormalizeText(seccion));
      var t := OptGet(c, "titulo");
      RenderIn(sedeInfo, seccion) == Ok(Page(UpperFirst(if Truthy(t) then t.s else seccion), c))
  {
    var c := OptGet(OptGet(sedeInfo, "mas"), NormalizeText(seccion));
    assert Seccion(OptGet(sedeInfo, "mas"), NormalizeText(seccion)) == c;
  }

  /** As written, the message names neither the campus nor the section: for a
      campus record that is an object, every unknown section gets the same
      text. */
  lemma MensajeIgnoresRequest(sedeInfo: Value, s1: string, s2: string)
    requires sedeInfo.Obj? && Truthy(OptGet(sedeInfo, "mas"))
    requires !IsUnificado(s1) && !IsUnificado(s2)
    requires NormalizeText(s1) !in ["bienvenida", "historia", "reglamento", "autoridades"]
    requires NormalizeText(s2) !in ["bienvenida", "historia", "reglamento", "autoridades"]
    ensures RenderIn(sedeInfo, s1) == RenderIn(sedeInfo, s2)
    ensures RenderIn(sedeInfo, s1) ==
      Ok(NotFound("En la sede \"" + "[object Object]" + "\" no existe el apartado \"" + "null" + "\"."))
  {
    UnknownSeccionMissing(sedeInfo, s1);
    UnknownSeccionMissing(sedeInfo, s2);
  }

  /** The message with the requested campus and section, as the other pages
      word theirs. */
  function MensajeFixed(sede: string, seccion: string): (m: string)
    ensures |m| == |sede| + |seccion| + 39
    ensures m[12..12 + |sede|] == sede
    ensures m[|m| - 2 - |seccion|..|m| - 2] == seccion
  {
    "En la sede \"" + sede + "\" no existe el apartado \"" + seccion + "\"."
  }

  /** The page with the corrected message; every other outcome is the page
      as written. */
  function RenderFixedIn(sedeInfo: Value, sede: string, seccion: string): (r: Outcome<View>)
    ensures r.Fail? <==> Resolve(sedeInfo, seccion).Fail?
    ensures r.Ok? ==> (r.value.NotFound? <==> Resolve(sedeInfo, seccion).value.Missing?)
    ensures r.Ok? && r.value.NotFound? ==> r.value.mensaje == MensajeFixed(sede, seccion)
    ensures r.Ok? && !r.value.NotFound? ==> RenderIn(sedeInfo, seccion) == r
  {
    var res :- Resolve(sedeInfo, seccion);
    Ok(ViewOf(res, MensajeFixed(sede, seccion)))
  }

  function RenderFixed(tree: Tree, sede: string, seccion: string): Outcome<View> {
    RenderFixedIn(SedeInfo(tree, sede), sede, seccion)
  }

  /** The corrected message tells apart the sections it reports: for one
      campus, two different sections never share a message. */
  lemma MensajeFixedInjective(sede: string, s1: string, s2: string)
    requires MensajeFixed(sede, s1) == MensajeFixed(sede, s2)
    ensures s1 == s2
  {
    var m := MensajeFixed(sede, s1);
    assert s1 == m[|m| - 2 - |s1|..|m| - 2];
  }
}
