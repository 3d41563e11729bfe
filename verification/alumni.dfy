/** src/components/Alumni.jsx: the alumni figures on a campus home page. For
    the section "general" the figures add up every campus of the data file;
    otherwise they come from the record stored under the raw campus segment.
    Both segments come from the route and may be missing. */
module Alumni {
  import opened Wrappers
  import opened Js
  import Home

  // ---------------------------------------------------------------------------
  // JavaScript `+` on the running total
  // ---------------------------------------------------------------------------

  /** The accumulator of `reduce((acc, s) => acc + x, 0)`: a number, NaN, or
      a string once a string operand has been met. */
  datatype Sum = Number(n: int) | NaN | Text(s: string)

  function SumText(a: Sum): string {
    match a
    case Number(n) => IntToString(n)
    case NaN => "NaN"
    case Text(s) => s
  }

  /** `acc + x` (section 13.15.3 of ECMAScript 2022, ApplyStringOrNumericBinaryOperator):
      string concatenation when either side is a string or an object, numeric
      addition otherwise (`true` is 1, `null` is 0, `undefined` is NaN). */
  function Plus(acc: Sum, x: Value): (r: Sum)
    ensures acc.Text? ==> r.Text?
    ensures acc.Number? && x.Num? ==> r == Number(acc.n + x.n)
  {
    if acc.Text? || x.Str? || x.Arr? || x.Obj? then Text(SumText(acc) + ToStr(x))
    else
      match acc
      case NaN => NaN
      case Number(n) =>
        match x
        case Num(m) => Number(n + m)
        case Bool(b) => Number(n + if b then 1 else 0)
        case Null => Number(n)
        case _ => NaN
  }

  // ---------------------------------------------------------------------------
  // Totals over every campus
  // ---------------------------------------------------------------------------

  /** `s.alumni?.graduados || 0`: throws on a nullish campus record. */
  function GraduadosOf(s: Value): (r: Outcome<Value>)
    ensures r.Fail? <==> Nullish(s)
    ensures r.Ok? ==> Truthy(r.value) || r.value == Num(0)
  {
    if Nullish(s) then Fail(TypeError) else Ok(Or(OptGet(OptGet(s, "alumni"), "graduados"), Num(0)))
  }

  /** `Object.values(dataJson).reduce((acc, s) => acc + (s.alumni?.graduados || 0), acc)`. */
  function ReduceGraduados(tree: Tree, acc: Sum): (r: Outcome<Sum>)
    ensures r.Fail? <==> exists i :: 0 <= i < |tree| && Nullish(tree[i].value)
    decreases |tree|
  {
    if |tree| == 0 then Ok(acc)
    else
      var x :- GraduadosOf(tree[0].value);
      var r := ReduceGraduados(tree[1..], Plus(acc, x));
      assert forall i :: 1 <= i < |tree| ==> tree[i] == tree[1..][i - 1];
      r
  }

  /** The number of graduates a campus contributes when its figure is a
      number or missing. */
  function Count(s: Value): int {
    var g := Or(OptGet(OptGet(s, "alumni"), "graduados"), Num(0));
    if g.Num? then g.n else 0
  }

  /** The reference total: the figures added up as integers. */
  function SumCounts(tree: Tree): int
    decreases |tree|
  {
    if |tree| == 0 then 0 else Count(tree[0].value) + SumCounts(tree[1..])
  }

  /** Every campus is a record whose figure is a number, or falsy. */
  predicate NumericFigures(tree: Tree) {
    forall i :: 0 <= i < |tree| ==>
      !Nullish(tree[i].value) && Or(OptGet(OptGet(tree[i].value, "alumni"), "graduados"), Num(0)).Num?
  }

  lemma NumericFiguresTail(tree: Tree)
    requires |tree| > 0 && NumericFigures(tree)
    ensures NumericFigures(tree[1..])
  {
    assert forall i :: 0 <= i < |tree| - 1 ==> tree[1..][i] == tree[i + 1];
  }

  /** One step of the reduction: the first campus's figure is added to the
      running total. */
  lemma ReduceGraduadosStep(tree: Tree, acc: Sum, x: Value)
    requires |tree| > 0 && GraduadosOf(tree[0].value) == Ok(x)
    ensures ReduceGraduados(tree, acc) == ReduceGraduados(tree[1..], Plus(acc, x))
  {
  }

  /** With numeric figures, the reduction is the sum of the figures, a
      missing or falsy one counting as 0. */
  lemma {:induction false} ReduceGraduadosSums(tree: Tree, a: int)
    requires NumericFigures(tree)
    ensures ReduceGraduados(tree, Number(a)) == Ok(Number(a + SumCounts(tree)))
    decreases |tree|
  {
    if |tree| > 0 {
      var n := Count(tree[0].value);
      assert GraduadosOf(tree[0].value) == Ok(Num(n));
      ReduceGraduadosStep(tree, Number(a), Num(n));
      NumericFiguresTail(tree);
      ReduceGraduadosSums(tree[1..], a + n);
    }
  }

  /** The `0` the reduction starts from. */
  const Start: Sum := Number(0)

  /** Started from 0, the reduction is the sum of the figures. */
  lemma GraduadosTotal(tree: Tree)
    requires NumericFigures(tree)
    ensures ReduceGraduados(tree, Start) == Ok(Number(SumCounts(tree)))
  {
    ReduceGraduadosSums(tree, Start.n);
  }

  /** `s.oferta ? Object.keys(s.oferta).length : 0`. */
  function OfertaCount(s: Value): nat {
    var o := OptGet(s, "oferta");
    if Truthy(o) then |OwnKeys(o)| else 0
  }

  /** `Object.values(dataJson).reduce((acc, s) => acc + count(s), 0)` for a
      callback that returns a count and reads a property of `s`, so throws on
      a nullish record. */
  function SumOver(tree: Tree, count: Value -> nat): (r: Outcome<nat>)
    ensures r.Fail? <==> exists i :: 0 <= i < |tree| && Nullish(tree[i].value)
    decreases |tree|
  {
    if |tree| == 0 then Ok(0)
    else if Nullish(tree[0].value) then Fail(TypeError)
    else
      var rest := SumOver(tree[1..], count);
      assert forall i :: 1 <= i < |tree| ==> tree[i] == tree[1..][i - 1];
      if rest.Fail? then rest else Ok(count(tree[0].value) + rest.value)
  }

  /** The reduction is additive: splitting the campuses splits the sum. */
  lemma {:induction false} SumOverConcat(a: Tree, b: Tree, count: Value -> nat)
    requires SumOver(a, count).Ok? && SumOver(b, count).Ok?
    ensures SumOver(a + b, count) == Ok(SumOver(a, count).value + SumOver(b, count).value)
    decreases |a|
  {
    if |a| > 0 {
      assert (a + b)[1..] == a[1..] + b;
      assert (a + b)[0] == a[0];
      SumOverConcat(a[1..], b, count);
    } else {
      assert a + b == b;
    }
  }

  /** `Object.values(dataJson).reduce((acc, s) => acc + (s.oferta ? ... : 0), 0)`:
      only numbers are added, so the total is an integer. */
  function ReduceCarreras(tree: Tree): (r: Outcome<nat>)
    ensures r.Fail? <==> exists i :: 0 <= i < |tree| && Nullish(tree[i].value)
  {
    SumOver(tree, OfertaCount)
  }

  /** The career total is additive over the data file: splitting the campuses
      splits the total. */
  lemma ReduceCarrerasConcat(a: Tree, b: Tree)
    requires ReduceCarreras(a).Ok? && ReduceCarreras(b).Ok?
    ensures ReduceCarreras(a + b) == Ok(ReduceCarreras(a).value + ReduceCarreras(b).value)
  {
    SumOverConcat(a, b, OfertaCount);
  }

  /** A campus whose `oferta` is a list contributes one career per entry. */
  lemma OfertaCountOfList(s: Value)
    requires OptGet(s, "oferta").Arr?
    ensures OfertaCount(s) == |OptGet(s, "oferta").items|
  {
  }

  // ---------------------------------------------------------------------------
  // The figures
  // ---------------------------------------------------------------------------

  const GeneralDescripcion: string :=
    "Conoce nuestra Red Alumni de todas las sedes y descubre el impacto de nuestros graduados."

  datatype Stats =
    | General(total: Sum, carreras: nat, texto: string)
    | Campus(graduados: Value, carreras: nat, descripcion: Value)

  /** The figures of one campus record (`dataSede?.…`). */
  function CampusStats(dataSede: Value): (r: Stats)
    ensures r.Campus?
    ensures Truthy(r.graduados) || r.graduados == Num(0)
    ensures Truthy(r.descripcion) || r.descripcion == Str("")
    ensures !Truthy(dataSede) ==> r == Campus(Num(0), 0, Str(""))
    ensures var g := OptGet(OptGet(dataSede, "alumni"), "graduados");
      r.graduados == (if Truthy(g) then g else Num(0))
    ensures var d := OptGet(OptGet(dataSede, "alumni"), "descripcion");
      r.descripcion == (if Truthy(d) then d else Str(""))
    ensures var o := OptGet(dataSede, "oferta");
      && (o.Obj? ==> r.carreras == |o.props|)
      && (o.Arr? ==> r.carreras == |o.items|)
      && (!Truthy(o) ==> r.carreras == 0)
  {
    var alumni := OptGet(dataSede, "alumni");
    Campus(Or(OptGet(alumni, "graduados"), Num(0)), OfertaCount(dataSede), Or(OptGet(alumni, "descripcion"), Str("")))
  }

  /** The segment as a property key: a missing segment reads the key
      "undefined". */
  function KeyText(s: Option<string>): string {
    match s
    case None => "undefined"
    case Some(t) => t
  }

  /** The general figures: both reductions, the graduates first. */
  function FiguresGeneral(tree: Tree): (r: Outcome<Stats>)
    ensures r.Fail? <==> exists i :: 0 <= i < |tree| && Nullish(tree[i].value)
    ensures r.Ok? ==> r.value.General? && r.value.texto == GeneralDescripcion
    ensures r.Ok? ==> Ok(r.value.total) == ReduceGraduados(tree, Start) && Ok(r.value.carreras) == ReduceCarreras(tree)
  {
    match ReduceGraduados(tree, Start)
    case Fail(e) => Fail(e)
    case Ok(g) => Ok(General(g, ReduceCarreras(tree).value, GeneralDescripcion))
  }

  /** The three figures. "general" is compared exactly; any other section
      reads `dataJson[sede]` with the raw segment. */
  function Figures(tree: Tree, sede: Option<string>, seccion: Option<string>): (r: Outcome<Stats>)
    ensures seccion == Some("general") ==> (r.Fail? <==> exists i :: 0 <= i < |tree| && Nullish(tree[i].value))
    ensures seccion == Some("general") && r.Ok? ==> r.value.General? && r.value.texto == GeneralDescripcion
    ensures seccion != Some("general") ==> r == Ok(CampusStats(Lookup(tree, KeyText(sede))))
  {
    if seccion == Some("general") then FiguresGeneral(tree)
    else Ok(CampusStats(Lookup(tree, KeyText(sede))))
  }

  /** With numeric figures, "general" shows the sum of the graduates of
      every campus and the sum of their career counts. */
  lemma GeneralFiguresSum(tree: Tree, sede: Option<string>)
    requires NumericFigures(tree)
    ensures Figures(tree, sede, Some("general")) ==
      Ok(General(Number(SumCounts(tree)), ReduceCarreras(tree).value, GeneralDescripcion))
  {
    GraduadosTotal(tree);
    assert ReduceCarreras(tree).Ok?;
  }

  // ---------------------------------------------------------------------------
  // The campus the home page resolved
  // ---------------------------------------------------------------------------

  /** The home page resolves its campus without whitespace and up to case,
      and renders this component at `/:sede` with the record's `alumni`
      field as a property the component ignores. Reading `dataJson[sede]`
      with the raw segment misses every campus whose key is not already in
      link form: the card link `/santacruz` of a campus "Santa Cruz" renders
      its home page with zero graduates, zero careers and no description. */
  lemma AlumniMissesHomeCampus(key: string, v: Value)
    requires Home.SedesLink(key) != key
    ensures var tree := [Prop(key, v)];
      var seg := Home.SedesLink(key);
      && Home.FindSede(tree, seg) == Some(key)
      && Figures(tree, Some(seg), None) == Ok(Campus(Num(0), 0, Str("")))
  {
    var tree := [Prop(key, v)];
    Home.SedesLinkResolves(tree, 0);
  }

  /** The figures of the campus the home page resolved. */
  function FiguresFixed(tree: Tree, sede: string, seccion: Option<string>): (r: Outcome<Stats>)
    ensures seccion != Some("general") ==> r == Ok(CampusStats(Home.SedeData(tree, sede)))
    ensures seccion == Some("general") ==> r == Figures(tree, Some(sede), seccion)
  {
    if seccion == Some("general") then Figures(tree, Some(sede), seccion)
    else Ok(CampusStats(Home.SedeData(tree, sede)))
  }

  /** With the corrected lookup, the card link of a campus shows that
      campus's own figures whenever no earlier key has the same link form. */
  lemma FixedShowsLinkedCampus(tree: Tree, i: nat)
    requires i < |tree| && tree[i].key != ""
    requires forall j :: 0 <= j < i ==> Home.KeyForm(tree[j].key) != Home.KeyForm(tree[i].key)
    ensures FiguresFixed(tree, Home.SedesLink(tree[i].key), None) == Ok(CampusStats(tree[i].value))
  {
    var seg := Home.SedesLink(tree[i].key);
    Home.SedesLinkResolves(tree, i);
    assert Home.FindSede(tree, seg) == Some(tree[i].key);
    forall j | 0 <= j < i
      ensures tree[j].key != tree[i].key
    {
      assert Home.KeyForm(tree[j].key) != Home.KeyForm(tree[i].key);
    }
    LookupFirst(tree, tree[i].key, i);
  }
}
