/** src/components/investigacion.jsx: the research pages of a campus. Its
    normaliser strips accents and lowercases but keeps whitespace; the page
    finds the campus, takes the first `investigacion` block, builds one tab per
    key of the block and dispatches the lowercased section segment to one of
    six fields. */
module Investigacion {
  import opened Wrappers
  import opened Js
  import opened Text

  // ---------------------------------------------------------------------------
  // Normaliser and campus search
  // ---------------------------------------------------------------------------

  /** `normalizeText`: `t?.normalize("NFD").replace(marks, "").toLowerCase()`;
      `undefined` passes through. Whitespace is kept: the result is the
      canonical slug once whitespace is dropped, and it holds exactly the
      whitespace of the input, in order. */
  function NormalizeText(t: Option<string>): (r: Option<string>)
    ensures r.None? <==> t.None?
    ensures t.Some? ==> RemoveSpace(r.value) == Canonical(t.value)
    ensures t.Some? ==> Spaces(r.value) == Spaces(t.value)
  {
    match t
    case None => None
    case Some(s) =>
      var stripped := StripMarks(Nfd(s));
      RemoveSpaceLower(stripped);
      SpacesOfLower(stripped);
      SpacesOfStripMarks(Nfd(s));
      SpacesOfNfd(s);
      Some(LowerStr(stripped))
  }

  /** A campus key and the segment have the same normal form. A key is a
      string, so its normal form is never `undefined`: a missing segment
      matches nothing. */
  predicate SameSede(key: string, sede: Option<string>) {
    NormalizeText(Some(key)) == NormalizeText(sede)
  }

  function FindSede(tree: Tree, sede: Option<string>): (k: Option<string>)
    ensures k.None? <==> forall i :: 0 <= i < |tree| ==> !SameSede(tree[i].key, sede)
    ensures k.Some? ==> SameSede(k.value, sede)
  {
    FindKey(tree, (key: string) => SameSede(key, sede))
  }

  /** Because whitespace is kept, a campus found from a segment has the same
      slug and exactly the same whitespace as the segment. */
  lemma FoundSedeSameSpaces(tree: Tree, sede: Option<string>)
    requires FindSede(tree, sede).Some?
    ensures sede.Some?
    ensures Canonical(FindSede(tree, sede).value) == Canonical(sede.value)
    ensures Spaces(FindSede(tree, sede).value) == Spaces(sede.value)
  {
  }

  /** For a key and a segment that hold no whitespace, this search agrees with
      the slug comparison of the other pages. */
  lemma SameSedeWithoutSpaces(key: string, seg: string)
    requires Spaces(key) == [] && Spaces(seg) == []
    ensures SameSede(key, Some(seg)) <==> Canonical(key) == Canonical(seg)
  {
    var nk, ns := NormalizeText(Some(key)).value, NormalizeText(Some(seg)).value;
    RemoveSpaceOfSpaceless(nk);
    RemoveSpaceOfSpaceless(ns);
  }

  // ---------------------------------------------------------------------------
  // Tabs
  // ---------------------------------------------------------------------------

  /** `sectionTitles[key]`: the display names of the six known sections. */
  function SectionTitle(key: string): Option<string> {
    if key == "bienvenida" then Some("Bienvenida")
    else if key == "boletines" then Some("Boletines")
    else if key == "revistasalud" then Some("Salud UNO")
    else if key == "lineadeinvestigacion" then Some("L\U{ED}nea de Investigaci\U{F3}n")
    else if key == "investigaciones" then Some("Investigaciones")
    else if key == "docentesinvestigadores" then Some("Docentes Investigadores")
    else None
  }

  /** `getTitle`: the table entry, or the key with its first character
      uppercased. */
  function GetTitle(key: string): (title: string)
    ensures SectionTitle(key).Some? ==> title == SectionTitle(key).value
    ensures SectionTitle(key).None? ==>
      |title| == |key| && (|key| > 0 ==> title[0] == Upper(key[0]) && title[1..] == key[1..])
  {
    match SectionTitle(key)
    case Some(t) => t
    case None => UpperFirst(key)
  }

  /** The label of a key without a table entry lowercases back to the key,
      when the key is already lowercase. */
  lemma GetTitleRoundTrip(key: string)
    requires SectionTitle(key).None?
    requires LowerStr(key) == key
    ensures LowerStr(GetTitle(key)) == key
  {
    if |key| > 0 {
      assert Lower(key[0]) == key[0];
      assert Lower(Upper(key[0])) == key[0];
    }
  }

  datatype Tab = Tab(key: string, caption: string)

  /** `Object.keys(bloque).map(...)`: one tab per key of the block, in key
      order, keyed by the lowercased key. */
  function Tabs(bloque: Value): (tabs: seq<Tab>)
    ensures |tabs| == |OwnKeys(bloque)|
    ensures forall i :: 0 <= i < |tabs| ==>
      tabs[i].key == LowerStr(OwnKeys(bloque)[i]) && tabs[i].caption == GetTitle(tabs[i].key)
  {
    var keys := OwnKeys(bloque);
    seq(|keys|, i requires 0 <= i < |keys| => Tab(LowerStr(keys[i]), GetTitle(LowerStr(keys[i]))))
  }

  // ---------------------------------------------------------------------------
  // Section dispatch
  // ---------------------------------------------------------------------------

  /** The six section names the `switch` recognises. */
  const Sections: seq<string> :=
    ["bienvenida", "boletines", "revistasalud", "lineadeinvestigacion", "investigaciones", "docentesinvestigadores"]

  /** The block field a recognised section reads: "revistasalud" reads the
      camel-case field `revistaSalud`; the others read their own name. */
  function FieldOf(seccionKey: string): string {
    if seccionKey == "revistasalud" then "revistaSalud" else seccionKey
  }

  /** The `switch (seccionKey)`. */
  function Contenido(bloque: Value, seccionKey: Option<string>): (v: Value)
    ensures seccionKey.None? || seccionKey.value !in Sections ==> v == Null
    ensures seccionKey == Some("bienvenida") ==> v == Arr([Obj([Prop("contenido", OptGet(bloque, "bienvenida"))])])
    ensures seccionKey.Some? && seccionKey.value in Sections && seccionKey.value != "bienvenida" ==>
      v == OptGet(bloque, FieldOf(seccionKey.value))
  {
    match seccionKey
    case None => Null
    case Some(k) =>
      if k == "bienvenida" then Arr([Obj([Prop("contenido", OptGet(bloque, "bienvenida"))])])
      else if k == "boletines" then OptGet(bloque, "boletines")
      else if k == "revistasalud" then OptGet(bloque, "revistaSalud")
      else if k == "lineadeinvestigacion" then OptGet(bloque, "lineadeinvestigacion")
      else if k == "investigaciones" then OptGet(bloque, "investigaciones")
      else if k == "docentesinvestigadores" then OptGet(bloque, "docentesinvestigadores")
      else Null
  }

  // ---------------------------------------------------------------------------
  // The page
  // ---------------------------------------------------------------------------

  datatype View =
    | SedeNoEncontrada
    | SinInvestigacion
    | NotFound(mensaje: string)
    | Page(tabs: seq<Tab>, contenido: Value)

  function SedeInfo(tree: Tree, sede: Option<string>): Value {
    Pick(tree, FindSede(tree, sede))
  }

  /** `sedeInfo?.investigacion?.[0]`. */
  function Bloque(sedeInfo: Value): Value {
    At(OptGet(sedeInfo, "investigacion"), 0)
  }

  /** What the component renders: the campus check, then the block check,
      then the section check, in that order. */
  function Render(tree: Tree, sede: Option<string>, seccion: Option<string>): (v: View)
    ensures !Truthy(SedeInfo(tree, sede)) <==> v == SedeNoEncontrada
    ensures v == SinInvestigacion <==> Truthy(SedeInfo(tree, sede)) && !Truthy(Bloque(SedeInfo(tree, sede)))
    ensures v.NotFound? ==> v.mensaje == "No existe la secci\U{F3}n \"" + SegmentText(seccion) + "\""
    ensures Truthy(SedeInfo(tree, sede)) && Truthy(Bloque(SedeInfo(tree, sede))) ==>
      (v.NotFound? <==> !Truthy(Contenido(Bloque(SedeInfo(tree, sede)), if seccion.Some? then Some(LowerStr(seccion.value)) else None)))
    ensures v.Page? ==>
      && Truthy(v.contenido)
      && v.contenido == Contenido(Bloque(SedeInfo(tree, sede)), if seccion.Some? then Some(LowerStr(seccion.value)) else None)
      && v.tabs == Tabs(Bloque(SedeInfo(tree, sede)))
  {
    var sedeInfo := SedeInfo(tree, sede);
    var bloque := Bloque(sedeInfo);
    if !Truthy(sedeInfo) then SedeNoEncontrada
    else if !Truthy(bloque) then SinInvestigacion
    else
      var seccionKey := if seccion.Some? then Some(LowerStr(seccion.value)) else None;
      var contenido := Contenido(bloque, seccionKey);
      if !Truthy(contenido) then NotFound("No existe la secci\U{F3}n \"" + SegmentText(seccion) + "\"")
      else Page(Tabs(bloque), contenido)
  }

  /** Once the campus and its block exist, "bienvenida" (in any case) always
      renders the page. */
  lemma BienvenidaAlwaysRenders(tree: Tree, sede: Option<string>, seccion: string)
    requires Truthy(Bloque(SedeInfo(tree, sede)))
    requires LowerStr(seccion) == "bienvenida"
    ensures Render(tree, sede, Some(seccion)).Page?
  {
    var bloque := Bloque(SedeInfo(tree, sede));
    assert Truthy(SedeInfo(tree, sede));
    assert Truthy(Contenido(bloque, Some(LowerStr(seccion))));
  }

  /** A segment whose lowercase form is none of the six names renders
      NotFound carrying the segment, whenever the campus and block exist. */
  lemma UnknownSectionNotFound(tree: Tree, sede: Option<string>, seccion: Option<string>)
    requires Truthy(SedeInfo(tree, sede)) && Truthy(Bloque(SedeInfo(tree, sede)))
    requires seccion.None? || LowerStr(seccion.value) !in Sections
    ensures Render(tree, sede, seccion) == NotFound("No existe la secci\U{F3}n \"" + SegmentText(seccion) + "\"")
  {
  }

  /** The block fields other than `bienvenida`, spelled as the block holds
      them. */
  const Fields: seq<string> :=
    ["boletines", "revistaSalud", "lineadeinvestigacion", "investigaciones", "docentesinvestigadores"]

  /** Lowercasing a field name gives a recognised section that reads that
      field back. */
  lemma FieldRoundTrip(f: string)
    requires f in Fields
    ensures LowerStr(f) in Sections && LowerStr(f) != "bienvenida"
    ensures LowerStr(LowerStr(f)) == LowerStr(f)
    ensures FieldOf(LowerStr(f)) == f
  {
    LowerStrIdempotent(f);
    if f == "revistaSalud" {
      assert LowerStr(f) == "revistasalud";
    } else {
      LowerStrIdentity(f);
    }
  }

  /** `handleTabClick(k)`: the tab navigates to `/${sede}/investigacion/${k}`
      with the raw campus segment, so the page re-renders with the tab key as
      the section. A block key spelled as its field (`revistaSalud` included)
      resolves back to that field. */
  lemma TabResolvesToItsField(tree: Tree, sede: Option<string>, i: nat)
    requires Truthy(SedeInfo(tree, sede))
    requires i < |Tabs(Bloque(SedeInfo(tree, sede)))|
    requires OwnKeys(Bloque(SedeInfo(tree, sede)))[i] in Fields
    ensures var bloque := Bloque(SedeInfo(tree, sede));
      var f := OwnKeys(bloque)[i];
      var v := Render(tree, sede, Some(Tabs(bloque)[i].key));
      (Truthy(OptGet(bloque, f)) ==> v == Page(Tabs(bloque), OptGet(bloque, f)))
      && (!Truthy(OptGet(bloque, f)) ==> v.NotFound?)
  {
    var bloque := Bloque(SedeInfo(tree, sede));
    var f := OwnKeys(bloque)[i];
    var k := Tabs(bloque)[i].key;
    assert Truthy(bloque);
    assert k == LowerStr(f);
    FieldRoundTrip(f);
    assert Contenido(bloque, Some(LowerStr(k))) == OptGet(bloque, f);
  }
}
