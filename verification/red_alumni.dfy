/** src/components/RedAlumni.jsx: the alumni network pages of a campus. Its
    normaliser defaults a missing argument to "" and computes the full slug.
    The page lists a "general" tab and one tab per career, and resolves the
    section segment to the general description or to a career. The background
    image is looked up separately, by case-insensitive key equality only. */
module RedAlumni {
  import opened Wrappers
  import opened Js
  import opened Text

  // ---------------------------------------------------------------------------
  // Normaliser
  // ---------------------------------------------------------------------------

  /** `normalize(text = "")` applied to a URL segment, which is a string or
      missing: the slug of the segment, "" when it is missing. */
  function NormalizeArg(text: Option<string>): (r: string)
    ensures IsCanonical(r)
    ensures text.None? ==> r == ""
    ensures text.Some? && IsCanonical(text.value) ==> r == text.value
  {
    var t := text.GetOr("");
    CanonicalIsCanonical(t);
    CanonicalFixedPoints(t);
    LowerStr(RemoveSpace(StripMarks(Nfd(t))))
  }

  /** `normalize(v)` applied to a data value: `undefined` takes the default
      "", a string gets its slug, and anything else has no `normalize`
      method (`null` does not take the default). */
  function NormalizeValue(v: Value): (r: Outcome<string>)
    ensures r.Fail? <==> !v.Undefined? && !v.Str?
    ensures v.Undefined? ==> r == Ok("")
    ensures v.Str? ==> r == Ok(NormalizeArg(Some(v.s)))
    ensures r.Ok? ==> IsCanonical(r.value)
  {
    match v
    case Undefined => Ok(NormalizeArg(None))
    case Str(s) => Ok(NormalizeArg(Some(s)))
    case _ => Fail(TypeError)
  }

  // ---------------------------------------------------------------------------
  // Campus searches
  // ---------------------------------------------------------------------------

  function FindSede(tree: Tree, sede: Option<string>): (k: Option<string>)
    ensures k.None? <==> forall i :: 0 <= i < |tree| ==> NormalizeArg(Some(tree[i].key)) != NormalizeArg(sede)
    ensures k.Some? ==> NormalizeArg(Some(k.value)) == NormalizeArg(sede)
  {
    var target := NormalizeArg(sede);
    FindKey(tree, (key: string) => NormalizeArg(Some(key)) == target)
  }

  /** The background effect's search: nothing for a falsy segment, otherwise
      the first key equal to the segment up to case. */
  function FondoKey(tree: Tree, sede: Option<string>): (k: Option<string>)
    ensures sede.None? || sede == Some("") ==> k.None?
    ensures k.Some? ==> sede.Some? && LowerStr(k.value) == LowerStr(sede.value)
    ensures k.Some? ==> exists i :: 0 <= i < |tree| && tree[i].key == k.value
    ensures sede.Some? && sede.value != "" ==>
      (k.None? <==> forall i :: 0 <= i < |tree| ==> LowerStr(tree[i].key) != LowerStr(sede.value))
  {
    match sede
    case None => None
    case Some(s) => if s == "" then None else FindKey(tree, (key: string) => LowerStr(key) == LowerStr(s))
  }

  /** The background image: the file named by `imagenes.fondoPrincipal` of
      the campus the background search found, or the default (None). */
  function Fondo(tree: Tree, sede: Option<string>): (f: Option<Value>)
    ensures f.Some? ==> FondoKey(tree, sede).Some? && Truthy(f.value)
    ensures f.Some? ==> f == Some(FondoNombre(Pick(tree, FondoKey(tree, sede))))
    ensures var nombre := FondoNombre(Pick(tree, FondoKey(tree, sede)));
      FondoKey(tree, sede).Some? && Truthy(nombre) ==> f == Some(nombre)
  {
    var nombre := FondoNombre(Pick(tree, FondoKey(tree, sede)));
    if Truthy(nombre) then Some(nombre) else None
  }

  /** `sedeInfo?.imagenes?.fondoPrincipal`. */
  function FondoNombre(info: Value): Value {
    OptGet(OptGet(info, "imagenes"), "fondoPrincipal")
  }

  /** The background comes from the first campus whose key equals the
      segment up to case: its file when it names one, the default otherwise. */
  lemma FondoOfFirstMatch(tree: Tree, sede: string, i: nat)
    requires sede != "" && i < |tree| && tree[i].key != ""
    requires LowerStr(tree[i].key) == LowerStr(sede)
    requires forall j :: 0 <= j < i ==> LowerStr(tree[j].key) != LowerStr(sede)
    ensures FondoKey(tree, Some(sede)) == Some(tree[i].key)
    ensures Fondo(tree, Some(sede)) ==
      (if Truthy(FondoNombre(tree[i].value)) then Some(FondoNombre(tree[i].value)) else None)
  {
    PickFirstMatch(tree, (key: string) => LowerStr(key) == LowerStr(sede), i);
  }

  /** The background search is stricter than the content search: whenever it
      finds a campus, the content search finds one too (the converse fails
      for a segment that differs from its key in accents or spacing). */
  lemma FondoImpliesContent(tree: Tree, sede: Option<string>)
    requires FondoKey(tree, sede).Some?
    ensures FindSede(tree, sede).Some?
  {
    var k := FondoKey(tree, sede).value;
    var s := sede.value;
    CanonicalOfLower(k);
    CanonicalOfLower(s);
    var i :| 0 <= i < |tree| && tree[i].key == k;
    assert NormalizeArg(Some(tree[i].key)) == NormalizeArg(sede);
  }

  // ---------------------------------------------------------------------------
  // Tabs and content
  // ---------------------------------------------------------------------------

  /** A tab: its key and its label, the career's `nombre` as stored. */
  datatype Tab = Tab(key: string, caption: Value)

  /** The key of the tab that every campus shows. */
  const GeneralKey: string := "general"

  const General: Tab := Tab(GeneralKey, Str("General"))

  /** `normalize(c.nombre)`: throws on a nullish career. */
  function NombreKey(c: Value): (r: Outcome<string>)
    ensures Nullish(c) ==> r.Fail?
    ensures !Nullish(c) ==> r == NormalizeValue(OptGet(c, "nombre"))
  {
    if Nullish(c) then Fail(TypeError) else NormalizeValue(OptGet(c, "nombre"))
  }

  function TabOf(c: Value): (r: Outcome<Tab>)
    ensures r.Ok? <==> NombreKey(c).Ok?
    ensures r.Ok? ==> r.value.key == NombreKey(c).value && r.value.caption == OptGet(c, "nombre")
  {
    var k :- NombreKey(c);
    Ok(Tab(k, OptGet(c, "nombre")))
  }

  /** `tabs`: "general" first, then one tab per career in order. Without alumni
      data only "general" remains; alumni data whose `carreras` is not an
      array throws. */
  function Tabs(red: Value): (r: Outcome<seq<Tab>>)
    ensures Nullish(red) ==> r == Ok([General])
    ensures r.Ok? ==> |r.value| >= 1 && r.value[0] == General
    ensures !Nullish(red) && !OptGet(red, "carreras").Arr? ==> r.Fail?
  {
    if Nullish(red) then Ok([General])
    else
      var ts :- ArrayMap(OptGet(red, "carreras"), TabOf);
      Ok([General] + ts)
  }

  /** After "general", one tab per career in order, keyed by the normalised
      `nombre` and labelled with the `nombre` as stored. */
  lemma TabsOfCareers(red: Value)
    requires !Nullish(red) && Tabs(red).Ok?
    ensures var carreras := OptGet(red, "carreras");
      var tabs := Tabs(red).value;
      && carreras.Arr?
      && |tabs| == |carreras.items| + 1
      && forall i :: 0 <= i < |carreras.items| ==>
           NombreKey(carreras.items[i]) == Ok(tabs[i + 1].key) && tabs[i + 1].caption == OptGet(carreras.items[i], "nombre")
  {
    var carreras := OptGet(red, "carreras");
    var ts := ArrayMap(carreras, TabOf).value;
    CareerTabs(carreras, ts);
    var tabs := [General] + ts;
    assert Tabs(red).value == tabs;
    assert forall i :: 0 <= i < |ts| ==> tabs[i + 1] == ts[i];
  }

  /** The mapped careers: one tab per entry, each the entry's own tab. */
  lemma CareerTabs(carreras: Value, ts: seq<Tab>)
    requires ArrayMap(carreras, TabOf) == Ok(ts)
    ensures carreras.Arr? && |ts| == |carreras.items|
    ensures forall i :: 0 <= i < |ts| ==> TabOf(carreras.items[i]) == Ok(ts[i])
  {
  }

  /** `(c) => normalize(c.nombre) === seccionNormalized`. */
  function NombreIs(seccion: string): Value -> Outcome<bool> {
    (c: Value) =>
      match NombreKey(c)
      case Fail(e) => Fail(e)
      case Ok(k) => Ok(k == seccion)
  }

  /** The general entry shown for "general". */
  function GeneralContent(red: Value): Value {
    Obj([Prop("titulo", Str("Red Alumni")), Prop("contenido", OptGet(red, "descripcion"))])
  }

  /** `contenido`: the general entry for "general", even without alumni
      data; otherwise the first career whose normalised name is the
      normalised section. */
  function Contenido(red: Value, seccionNormalized: string): (r: Outcome<Value>)
    ensures seccionNormalized == GeneralKey ==> r == Ok(GeneralContent(red)) && Truthy(r.value)
    ensures seccionNormalized != GeneralKey && Nullish(red) ==> r == Ok(Undefined)
    ensures seccionNormalized != GeneralKey && !Nullish(red) ==>
      r == ArrayFind(OptGet(red, "carreras"), NombreIs(seccionNormalized))
  {
    if seccionNormalized == GeneralKey then Ok(GeneralContent(red))
    else if Nullish(red) then Ok(Undefined)
    else ArrayFind(OptGet(red, "carreras"), NombreIs(seccionNormalized))
  }

  // ---------------------------------------------------------------------------
  // The page
  // ---------------------------------------------------------------------------

  datatype View = NotFound(mensaje: string) | Page(tabs: seq<Tab>, contenido: Value)

  /** The NotFound message names the section and the campus as written. */
  function Mensaje(sede: Option<string>, seccion: Option<string>): string {
    "No existe la secci\U{F3}n \"" + SegmentText(seccion) + "\" en la Red Alumni de la sede " + SegmentText(sede) + "."
  }

  /** `sedeInfo?.redalumni`. */
  function RedData(tree: Tree, sede: Option<string>): Value {
    OptGet(Pick(tree, FindSede(tree, sede)), "redalumni")
  }

  /** What the component renders. There is no separate campus check: an
      unknown campus has no alumni data, so only "general" renders. */
  function Render(tree: Tree, sede: Option<string>, seccion: Option<string>): (r: Outcome<View>)
    ensures r.Fail? <==>
      Tabs(RedData(tree, sede)).Fail? || Contenido(RedData(tree, sede), NormalizeArg(seccion)).Fail?
    ensures r.Ok? ==>
      (r.value.NotFound? <==> !Truthy(Contenido(RedData(tree, sede), NormalizeArg(seccion)).value))
    ensures r.Ok? && r.value.NotFound? ==> r.value.mensaje == Mensaje(sede, seccion)
    ensures r.Ok? && r.value.Page? ==>
      && Tabs(RedData(tree, sede)) == Ok(r.value.tabs)
      && Contenido(RedData(tree, sede), NormalizeArg(seccion)) == Ok(r.value.contenido)
      && Truthy(r.value.contenido)
  {
    var red := RedData(tree, sede);
    var tabs :- Tabs(red);
    var contenido :- Contenido(red, NormalizeArg(seccion));
    if !Truthy(contenido) then Ok(NotFound(Mensaje(sede, seccion)))
    else Ok(Page(tabs, contenido))
  }

  /** "general", however it is written, always renders the general entry
      once the tabs are built, whatever the campus. */
  lemma GeneralAlwaysRenders(tree: Tree, sede: Option<string>, seccion: string)
    requires NormalizeArg(Some(seccion)) == GeneralKey
    requires Tabs(RedData(tree, sede)).Ok?
    ensures Render(tree, sede, Some(seccion)) ==
      Ok(Page(Tabs(RedData(tree, sede)).value, GeneralContent(RedData(tree, sede))))
  {
  }

  /** A career tab's key resolves to a truthy career when every career entry
      is truthy. */
  lemma CareerTabResolves(red: Value, j: nat)
    requires !Nullish(red) && Tabs(red).Ok? && j + 1 < |Tabs(red).value|
    requires forall c :: c in OptGet(red, "carreras").items ==> Truthy(c)
    requires Tabs(red).value[j + 1].key != GeneralKey
    ensures Contenido(red, Tabs(red).value[j + 1].key).Ok?
    ensures Truthy(Contenido(red, Tabs(red).value[j + 1].key).value)
  {
    var tabs := Tabs(red).value;
    TabsOfCareers(red);
    var key := tabs[j + 1].key;
    var items := OptGet(red, "carreras").items;
    var test := NombreIs(key);
    forall m | 0 <= m < |items|
      ensures test(items[m]).Ok?
    {
      assert NombreKey(items[m]) == Ok(tabs[m + 1].key);
    }
    assert test(items[j]) == Ok(true);
    FindThrowingFinds(items, test, j);
    var found := FindThrowing(items, test).value.value;
    assert items[found] in items;
  }

  lemma GeneralKeyCanonical()
    ensures IsCanonical(GeneralKey)
  {
  }

  lemma CareerKeyCanonical(c: Value, key: string)
    requires NombreKey(c) == Ok(key)
    ensures IsCanonical(key)
  {
    assert NormalizeValue(OptGet(c, "nombre")) == Ok(key);
  }

  /** Every tab key is already in normal form. */
  lemma TabKeyCanonical(red: Value, i: nat)
    requires Tabs(red).Ok? && i < |Tabs(red).value|
    ensures IsCanonical(Tabs(red).value[i].key)
  {
    var tabs := Tabs(red).value;
    if i == 0 {
      GeneralKeyCanonical();
    } else {
      TabsOfCareers(red);
      CareerKeyCanonical(OptGet(red, "carreras").items[i - 1], tabs[i].key);
    }
  }

  /** `handleTabClick(key)` navigates to `/${sede}/redalumni/${key}`: every
      tab key resolves back to content, provided every career entry is
      truthy (a falsy entry such as "" has no `nombre` and could be the one
      found). */
  lemma TabKeysResolve(red: Value, i: nat)
    requires Tabs(red).Ok? && i < |Tabs(red).value|
    requires !Nullish(red) ==> forall c :: c in OptGet(red, "carreras").items ==> Truthy(c)
    ensures var key := NormalizeArg(Some(Tabs(red).value[i].key));
      Contenido(red, key).Ok? && Truthy(Contenido(red, key).value)
  {
    var key := Tabs(red).value[i].key;
    TabKeyCanonical(red, i);
    if i > 0 && key != GeneralKey {
      CareerTabResolves(red, i - 1);
    }
  }
}
