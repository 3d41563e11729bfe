/** src/pages/Home.jsx: the home page of a campus, route `/:sede`. The
    campus is the first key that, with its whitespace removed and lowercased,
    equals the lowercased segment; accents are compared as they are. The page
    then renders the sections the campus record has, in a fixed order. */
module Home {
  import opened Wrappers
  import opened Js
  import opened Text
  import Header

  // ---------------------------------------------------------------------------
  // Campus search
  // ---------------------------------------------------------------------------

  /** `key.replace(/\s+/g, '').toLowerCase()`. */
  function KeyForm(key: string): (r: string)
    ensures forall i :: 0 <= i < |r| ==> !IsSpace(r[i])
  {
    var k := RemoveSpace(key);
    assert forall i :: 0 <= i < |k| ==> !IsSpace(k[i]) by {
      assert forall i :: 0 <= i < |k| ==> k[i] in k;
    }
    LowerPreservesClasses();
    LowerStr(k)
  }

  predicate Matches(key: string, sedeUrl: string) {
    KeyForm(key) == LowerStr(sedeUrl)
  }

  /** `Object.keys(datos).find(...)` as written. */
  function FindSede(tree: Tree, sedeUrl: string): (k: Option<string>)
    ensures k.None? <==> forall i :: 0 <= i < |tree| ==> !Matches(tree[i].key, sedeUrl)
    ensures k.Some? ==> Matches(k.value, sedeUrl)
  {
    FindKey(tree, (key: string) => Matches(key, sedeUrl))
  }

  /** A segment holding whitespace matches no key: the key side has lost its
      whitespace, the segment side keeps it. */
  lemma SpacedSegmentNeverMatches(tree: Tree, sedeUrl: string, j: nat)
    requires j < |sedeUrl| && IsSpace(sedeUrl[j])
    ensures FindSede(tree, sedeUrl).None?
  {
    LowerFacts(sedeUrl[j]);
  }

  /** The segment the campus cards of src/components/Sedes.jsx:96 navigate
      to: the campus name without whitespace, lowercased. */
  function SedesLink(nombre: string): string {
    LowerStr(RemoveSpace(nombre))
  }

  /** A campus card whose name is a key leads to a campus with the same key
      form; it leads to that very key when no earlier key shares the form. */
  lemma SedesLinkResolves(tree: Tree, i: nat)
    requires i < |tree|
    ensures FindSede(tree, SedesLink(tree[i].key)).Some?
    ensures KeyForm(FindSede(tree, SedesLink(tree[i].key)).value) == KeyForm(tree[i].key)
    ensures (forall j :: 0 <= j < i ==> KeyForm(tree[j].key) != KeyForm(tree[i].key)) ==>
      FindSede(tree, SedesLink(tree[i].key)) == Some(tree[i].key)
  {
    var seg := SedesLink(tree[i].key);
    LowerStrIdempotent(RemoveSpace(tree[i].key));
    assert Matches(tree[i].key, seg);
    if forall j :: 0 <= j < i ==> KeyForm(tree[j].key) != KeyForm(tree[i].key) {
      PickFirstMatch(tree, (key: string) => Matches(key, seg), i);
    }
  }

  // ---------------------------------------------------------------------------
  // Sections
  // ---------------------------------------------------------------------------

  /** The section fields in the order the page renders them. */
  const SectionNames: seq<string> := ["inscripcion", "oferta", "sedes", "alumni", "requisitos", "noticias"]

  /** What `{sedeData?.x && <X data={sedeData.x} />}` leaves on the page: the
      section component for a truthy field, the text "0" for the number 0
      (React prints a falsy number), nothing for any other falsy value. The
      position names the field in `SectionNames`. */
  datatype Block = Section(pos: nat, data: Value) | Zero(pos: nat)

  /** The six fields of a campus record, in display order. */
  function Fields(d: Value): (vs: seq<Value>)
    ensures |vs| == |SectionNames|
    ensures forall p :: 0 <= p < |vs| ==> vs[p] == OptGet(d, SectionNames[p])
  {
    seq(|SectionNames|, p requires 0 <= p < |SectionNames| => OptGet(d, SectionNames[p]))
  }

  /** Whether a field leaves anything on the page. */
  predicate Shows(v: Value) {
    Truthy(v) || v == Num(0)
  }

  /** The blocks of the fields from position `p` on. */
  function BlocksFrom(vs: seq<Value>, p: nat): (r: seq<Block>)
    requires p <= |vs|
    ensures forall k :: 0 <= k < |r| ==> p <= r[k].pos < |vs|
    ensures forall k :: 0 <= k < |r| - 1 ==> r[k].pos < r[k + 1].pos
    ensures forall k :: 0 <= k < |r| ==> (r[k].Section? ==> r[k].data == vs[r[k].pos] && Truthy(r[k].data))
    ensures forall k :: 0 <= k < |r| ==> (r[k].Zero? ==> vs[r[k].pos] == Num(0))
    decreases |vs| - p
  {
    if p == |vs| then []
    else
      var rest := BlocksFrom(vs, p + 1);
      if Truthy(vs[p]) then [Section(p, vs[p])] + rest
      else if vs[p] == Num(0) then [Zero(p)] + rest
      else rest
  }

  /** Every field from position `p` on that leaves something on the page
      has a block (the converse is in the contract of `BlocksFrom`). */
  lemma {:induction false} BlocksFromCovers(vs: seq<Value>, p: nat, q: nat)
    requires p <= q < |vs| && Shows(vs[q])
    ensures exists k :: 0 <= k < |BlocksFrom(vs, p)| && BlocksFrom(vs, p)[k].pos == q
    decreases |vs| - p
  {
    var r := BlocksFrom(vs, p);
    if p == q {
      assert r[0].pos == q;
    } else {
      var rest := BlocksFrom(vs, p + 1);
      BlocksFromCovers(vs, p + 1, q);
      var k :| 0 <= k < |rest| && rest[k].pos == q;
      if Shows(vs[p]) {
        assert r[k + 1] == rest[k];
      } else {
        assert r[k] == rest[k];
      }
    }
  }

  /** The fields in display order that leave something on the page: a field
      shows exactly when it has a block, and blocks follow the fixed order. */
  function Blocks(d: Value): (r: seq<Block>)
    ensures forall k :: 0 <= k < |r| - 1 ==> r[k].pos < r[k + 1].pos
    ensures forall q :: 0 <= q < |SectionNames| ==>
      (Shows(OptGet(d, SectionNames[q])) <==> exists k :: 0 <= k < |r| && r[k].pos == q)
    ensures forall k :: 0 <= k < |r| ==> r[k].pos < |SectionNames|
    ensures forall k :: 0 <= k < |r| ==> (r[k].Section? ==> r[k].data == OptGet(d, SectionNames[r[k].pos]) && Truthy(r[k].data))
    ensures forall k :: 0 <= k < |r| ==> (r[k].Zero? ==> OptGet(d, SectionNames[r[k].pos]) == Num(0))
  {
    var vs := Fields(d);
    var r := BlocksFrom(vs, 0);
    forall q | 0 <= q < |SectionNames| && Shows(vs[q])
      ensures exists k :: 0 <= k < |r| && r[k].pos == q
    {
      BlocksFromCovers(vs, 0, q);
    }
    r
  }

  /** Block positions increase, so every earlier block names an earlier
      field and no field is rendered twice. */
  lemma {:induction false} BlocksOrdered(d: Value, a: nat, b: nat)
    requires a < b < |Blocks(d)|
    ensures Blocks(d)[a].pos < Blocks(d)[b].pos
    decreases b - a
  {
    if a + 1 < b {
      BlocksOrdered(d, a + 1, b);
    }
  }

  // ---------------------------------------------------------------------------
  // The page
  // ---------------------------------------------------------------------------

  datatype View = NotFound(mensaje: string) | Page(blocks: seq<Block>)

  function SedeData(tree: Tree, sedeUrl: string): Value {
    Pick(tree, FindSede(tree, sedeUrl))
  }

  /** `<NotFound mensaje={`La sede "${sedeUrl}" no existe.`} />` without a
      truthy campus record, the sections otherwise. */
  function RenderIn(sedeData: Value, sedeUrl: string): (v: View)
    ensures v.NotFound? <==> !Truthy(sedeData)
    ensures v.NotFound? ==> v.mensaje == "La sede \"" + sedeUrl + "\" no existe."
    ensures v.Page? ==> v.blocks == Blocks(sedeData)
  {
    if !Truthy(sedeData) then NotFound("La sede \"" + sedeUrl + "\" no existe.")
    else Page(Blocks(sedeData))
  }

  /** The page as routed: the sections of the first campus whose key form
      is the lowercased segment, when its record is truthy. */
  function Render(tree: Tree, sedeUrl: string): (v: View)
    ensures FindSede(tree, sedeUrl).None? ==> v == NotFound("La sede \"" + sedeUrl + "\" no existe.")
    ensures v.Page? ==> FindSede(tree, sedeUrl).Some? && Matches(FindSede(tree, sedeUrl).value, sedeUrl)
    ensures v.NotFound? <==> !Truthy(SedeData(tree, sedeUrl))
    ensures v.NotFound? ==> v.mensaje == "La sede \"" + sedeUrl + "\" no existe."
    ensures v.Page? ==> v.blocks == Blocks(SedeData(tree, sedeUrl))
  {
    RenderIn(SedeData(tree, sedeUrl), sedeUrl)
  }

  /** The first key that matches the segment decides the page: its
      sections when its record is truthy. */
  lemma ShowsFirstMatch(tree: Tree, sedeUrl: string, i: nat)
    requires i < |tree| && tree[i].key != "" && Matches(tree[i].key, sedeUrl)
    requires forall j :: 0 <= j < i ==> !Matches(tree[j].key, sedeUrl)
    requires Truthy(tree[i].value)
    ensures Render(tree, sedeUrl) == Page(Blocks(tree[i].value))
  {
    PickFirstMatch(tree, (key: string) => Matches(key, sedeUrl), i);
  }

  // ---------------------------------------------------------------------------
  // The home link of the header
  // ---------------------------------------------------------------------------

  /** A key holding an accented letter keeps it in its key form. */
  lemma KeyFormKeepsAccent(key: string, j: nat)
    requires j < |key| && IsComposed(key[j])
    ensures exists m :: 0 <= m < |KeyForm(key)| && IsComposed(KeyForm(key)[m])
  {
    DecomposeFacts(key[j]);
    LowerFacts(key[j]);
    var k := RemoveSpace(key);
    assert key[j] in key;
    assert key[j] in k;
    var m :| 0 <= m < |k| && k[m] == key[j];
    assert KeyForm(key)[m] == Lower(key[j]);
  }

  /** The header's "Inicio" entry navigates to the slug of the current
      segment, which drops accents; this search keeps them. A campus whose key
      holds an accented letter, reached through its campus card, is lost as
      soon as the visitor clicks "Inicio" (for the key "Potos\U{ED}": the card
      leads to `/potos\U{ED}`, which renders, and "Inicio" to `/potosi`, which
      renders NotFound). */
  lemma InicioLinkLost(key: string, v: Value, j: nat)
    requires j < |key| && IsComposed(key[j])
    ensures var tree := [Prop(key, v)];
      var seg := SedesLink(key);
      && FindSede(tree, seg) == Some(key)
      && Header.InicioPath(Some(seg)) == (if seg == "" then "/" else "/" + Header.NormalizeForUrl(seg))
      && FindSede(tree, Header.NormalizeForUrl(seg)).None?
      && Render(tree, Header.NormalizeForUrl(seg)).NotFound?
  {
    var tree := [Prop(key, v)];
    var seg := SedesLink(key);
    SedesLinkResolves(tree, 0);
    var t := Header.NormalizeForUrl(seg);
    CanonicalIsCanonical(seg);
    LowerStrIdentity(t);
    KeyFormKeepsAccent(key, j);
  }

  /** The search with the slug every other page uses. */
  function FindSedeFixed(tree: Tree, sedeUrl: string): (k: Option<string>)
    ensures k.None? <==> forall i :: 0 <= i < |tree| ==> Canonical(tree[i].key) != Canonical(sedeUrl)
    ensures k.Some? ==> Canonical(k.value) == Canonical(sedeUrl)
  {
    var target := Canonical(sedeUrl);
    FindKey(tree, (key: string) => Canonical(key) == target)
  }

  /** The header's home link and the campus cards' links land on the campus
      the current segment names. */
  lemma FixedResolvesLinks(tree: Tree, sedeUrl: string)
    ensures FindSedeFixed(tree, Header.NormalizeForUrl(sedeUrl)) == FindSedeFixed(tree, sedeUrl)
    ensures FindSedeFixed(tree, SedesLink(sedeUrl)) == FindSedeFixed(tree, sedeUrl)
  {
    CanonicalIdempotent(sedeUrl);
    CanonicalOfLower(RemoveSpace(sedeUrl));
    CanonicalOfRemoveSpace(sedeUrl);
  }

  /** The corrected search finds a campus whenever the search as written does. */
  lemma FixedExtendsAsWritten(tree: Tree, sedeUrl: string)
    requires FindSede(tree, sedeUrl).Some?
    ensures FindSedeFixed(tree, sedeUrl).Some?
  {
    var k := FindSede(tree, sedeUrl).value;
    var i :| 0 <= i < |tree| && tree[i].key == k;
    CanonicalOfLower(RemoveSpace(k));
    CanonicalOfRemoveSpace(k);
    CanonicalOfLower(sedeUrl);
    assert Canonical(tree[i].key) == Canonical(sedeUrl);
  }

  function RenderFixed(tree: Tree, sedeUrl: string): (v: View)
    ensures FindSedeFixed(tree, sedeUrl).None? ==> v == NotFound("La sede \"" + sedeUrl + "\" no existe.")
    ensures v == RenderIn(Pick(tree, FindSedeFixed(tree, sedeUrl)), sedeUrl)
  {
    RenderIn(Pick(tree, FindSedeFixed(tree, sedeUrl)), sedeUrl)
  }

  /** With the corrected search, the home link renders what the current page
      renders, up to the segment the message repeats. */
  lemma FixedInicioKeepsPage(tree: Tree, sedeUrl: string)
    ensures RenderFixed(tree, Header.NormalizeForUrl(sedeUrl)).Page? <==> RenderFixed(tree, sedeUrl).Page?
    ensures RenderFixed(tree, sedeUrl).Page? ==> RenderFixed(tree, Header.NormalizeForUrl(sedeUrl)) == RenderFixed(tree, sedeUrl)
  {
    FixedResolvesLinks(tree, sedeUrl);
  }
}
