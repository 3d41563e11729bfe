/** src/components/Oferta.jsx: the career grid of a campus home page. It finds
    the campus with its own normaliser (lowercase, then drop whitespace; accents
    are kept), copies the campus's `oferta` list into cards, lays the cards out
    in at most two rows, and links each card to the career page. */
module Oferta {
  import opened Wrappers
  import opened Js
  import opened Text

  // ---------------------------------------------------------------------------
  // Grid rows
  // ---------------------------------------------------------------------------

  function Concat<T>(rows: seq<seq<T>>): seq<T>
    decreases |rows|
  {
    if |rows| == 0 then [] else rows[0] + Concat(rows[1..])
  }

  /** `dividirEnFilas`: at most three items make one row; more are split in
      two rows, the first taking the extra item of an odd count
      (`Math.ceil(n / 2)`, which is `(n + 1) / 2` for a natural `n`). */
  function DividirEnFilas<T>(lista: seq<T>): (filas: seq<seq<T>>)
    ensures 1 <= |filas| <= 2
    ensures Concat(filas) == lista
    ensures |lista| <= 3 ==> filas == [lista]
    ensures |lista| > 3 ==> |filas| == 2
    ensures |lista| > 3 && |lista| % 2 == 0 ==> |filas[0]| == |filas[1]| == |lista| / 2
    ensures |lista| > 3 && |lista| % 2 == 1 ==> |filas[0]| == |lista| / 2 + 1 && |filas[1]| == |lista| / 2
    ensures |filas| == 2 ==> |filas[1]| <= |filas[0]| <= |filas[1]| + 1
  {
    var n := |lista|;
    if n <= 3 then
      assert Concat([lista]) == lista + Concat([lista][1..]);
      [lista]
    else if n % 2 == 0 then
      var filas := [lista[..n / 2], lista[n / 2..]];
      assert Concat(filas) == filas[0] + (filas[1] + Concat(filas[2..]));
      assert lista == lista[..n / 2] + lista[n / 2..];
      filas
    else
      var arriba := (n + 1) / 2;
      var filas := [lista[..arriba], lista[arriba..]];
      assert Concat(filas) == filas[0] + (filas[1] + Concat(filas[2..]));
      assert lista == lista[..arriba] + lista[arriba..];
      filas
  }

  // ---------------------------------------------------------------------------
  // Normaliser and campus search
  // ---------------------------------------------------------------------------

  /** `normalize`: `toLowerCase()` then drop `\s`. No decomposition and no
      mark stripping. */
  function Normalize(str: string): (r: string)
    ensures forall i :: 0 <= i < |r| ==> !IsSpace(r[i]) && Lower(r[i]) == r[i]
  {
    var lowered := LowerStr(str);
    assert forall c :: c in lowered ==> Lower(c) == c by {
      forall c | c in lowered ensures Lower(c) == c {
        var i :| 0 <= i < |lowered| && lowered[i] == c;
        LowerFacts(str[i]);
      }
    }
    RemoveSpace(lowered)
  }

  /** Accents survive this normaliser: every non-space character of the input
      appears, lowercased, in the output. */
  lemma NormalizeKeepsAccents(str: string, c: char)
    requires c in str && !IsSpace(c)
    ensures Lower(c) in Normalize(str)
  {
    var i :| 0 <= i < |str| && str[i] == c;
    LowerFacts(c);
    assert LowerStr(str)[i] == Lower(c);
  }

  lemma NormalizeIdempotent(str: string)
    ensures Normalize(Normalize(str)) == Normalize(str)
  {
    var once := Normalize(str);
    LowerStrIdentity(once);
    WithoutIdentity(once, IsSpace);
  }

  /** The campus search of the effect: the first key whose normal form equals
      that of the URL segment, a missing segment counting as "". */
  function FindSede(tree: Tree, sede: Option<string>): (k: Option<string>)
    ensures k.Some? ==> Normalize(k.value) == Normalize(sede.GetOr(""))
    ensures k.None? <==> forall i :: 0 <= i < |tree| ==> Normalize(tree[i].key) != Normalize(sede.GetOr(""))
  {
    var target := Normalize(sede.GetOr(""));
    FindKey(tree, (k: string) => Normalize(k) == target)
  }

  // ---------------------------------------------------------------------------
  // The effect: careers and background of the found campus
  // ---------------------------------------------------------------------------

  /** A career card: its title and the name of its image (image loading
      through the bundler is not modelled). */
  datatype Card = Card(title: Value, imagen: Value)

  /** The section background: the default image, or the file named by the
      campus's `imagenes.fondoOferta`. */
  datatype Fondo = FondoDefault | FondoArchivo(nombre: Value)

  datatype State = State(carreras: seq<Card>, fondo: Fondo)

  const Initial: State := State([], FondoDefault)

  /** `(c) => ({ title: c.title, img: getImagenCarrera(c.imagen) })`. */
  function CardOf(c: Value): (r: Outcome<Card>)
    ensures r.Fail? <==> Nullish(c)
    ensures r.Ok? ==> r.value.title == OptGet(c, "title") && r.value.imagen == OptGet(c, "imagen")
  {
    if Nullish(c) then Fail(TypeError) else Ok(Card(OptGet(c, "title"), OptGet(c, "imagen")))
  }

  /** The `useEffect` body: when no campus matches (or its record is falsy)
      the state is left as it was; otherwise the cards are rebuilt from
      `oferta` and the background from `imagenes.fondoOferta`. */
  function Effect(tree: Tree, sede: Option<string>, prev: State): (r: Outcome<State>)
    ensures FindSede(tree, sede).None? ==> r == Ok(prev)
    ensures !Truthy(Pick(tree, FindSede(tree, sede))) ==> r == Ok(prev)
    ensures Truthy(Pick(tree, FindSede(tree, sede))) && r.Ok? ==>
      var data := Pick(tree, FindSede(tree, sede));
      var oferta := OptGet(data, "oferta");
      && (!Truthy(oferta) ==> r.value.carreras == [])
      && (oferta.Arr? ==>
            && |r.value.carreras| == |oferta.items|
            && forall i :: 0 <= i < |oferta.items| ==> r.value.carreras[i].title == OptGet(oferta.items[i], "title"))
      && (r.value.fondo.FondoArchivo? <==> Truthy(OptGet(OptGet(data, "imagenes"), "fondoOferta")))
      && (r.value.fondo.FondoArchivo? ==> r.value.fondo.nombre == OptGet(OptGet(data, "imagenes"), "fondoOferta"))
    ensures Truthy(Pick(tree, FindSede(tree, sede))) ==>
      var oferta := OptGet(Pick(tree, FindSede(tree, sede)), "oferta");
      (r.Fail? <==> Truthy(oferta) && (!oferta.Arr? || exists i :: 0 <= i < |oferta.items| && Nullish(oferta.items[i])))
  {
    var data := Pick(tree, FindSede(tree, sede));
    if !Truthy(data) then Ok(prev)
    else
      var oferta := OptGet(data, "oferta");
      var carreras :- if Truthy(oferta) then ArrayMap(oferta, CardOf) else Ok([]);
      Ok(State(carreras, FondoOf(data)))
  }

  /** `data.imagenes?.fondoOferta`: the named file when it is truthy, the
      default otherwise. */
  function FondoOf(data: Value): (f: Fondo)
    ensures f.FondoArchivo? <==> Truthy(OptGet(OptGet(data, "imagenes"), "fondoOferta"))
    ensures f.FondoArchivo? ==> f.nombre == OptGet(OptGet(data, "imagenes"), "fondoOferta")
  {
    var nombre := OptGet(OptGet(data, "imagenes"), "fondoOferta");
    if Truthy(nombre) then FondoArchivo(nombre) else FondoDefault
  }

  // ---------------------------------------------------------------------------
  // Card link
  // ---------------------------------------------------------------------------

  /** The card's `onClick` target: the raw campus segment, a capitalised
      "Carrera" segment, and the title with whitespace removed but case and
      accents kept. A card whose `title` is not a string has no `replace`,
      so the click throws. */
  function CareerPath(sede: string, title: Value): (r: Outcome<string>)
    ensures r.Fail? <==> !title.Str?
    ensures r.Ok? ==> r.value == "/" + sede + "/Carrera/" + RemoveSpace(title.s)
    ensures r.Ok? ==> var path := r.value;
      && |path| >= |sede| + 10 && path[..|sede| + 10] == "/" + sede + "/Carrera/"
      && var rest := path[|sede| + 10..];
      && (forall i :: 0 <= i < |rest| ==> !IsSpace(rest[i]))
      && Canonical(rest) == Canonical(title.s)
      && LowerStr(rest) == Normalize(title.s)
  {
    match title
    case Str(t) =>
      var rest := RemoveSpace(t);
      CanonicalOfRemoveSpace(t);
      RemoveSpaceLower(t);
      var path := "/" + sede + "/Carrera/" + rest;
      assert path[|sede| + 10..] == rest;
      Ok(path)
    case _ => Fail(TypeError)
  }
}
