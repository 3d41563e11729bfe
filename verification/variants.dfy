/** How the pages' links and lookups fit together: the paths one page builds
    are resolved by another page, each with its own normaliser. */
module Variants {
  import opened Wrappers
  import opened Js
  import opened Text
  import Header
  import Home
  import Oferta
  import Carrera
  import SeccionMas
  import Interaccion
  import RedAlumni

  /** The pages that compute the full slug compute the same string. */
  lemma SlugsAgree(s: string)
    ensures Header.NormalizeForUrl(s) == Canonical(s)
    ensures Carrera.NormalizeText(s) == Canonical(s)
    ensures SeccionMas.NormalizeText(s) == Canonical(s)
    ensures Interaccion.NormalizeText(s) == Canonical(s)
    ensures RedAlumni.NormalizeArg(Some(s)) == Canonical(s)
  {
  }

  /** The header's career link `/${slug(sede)}/carrera/${slug(nombre)}` (its
      segments are those of `Header.CarreraPathSplit`) leads the career page
      to the campus it finds from the raw campus name. */
  lemma HeaderCarreraLinkFindsCampus(tree: Tree, sede: string)
    ensures Carrera.FindSede(tree, Header.NormalizeForUrl(sede)) == Carrera.FindSede(tree, sede)
  {
    Carrera.FindSedePlain(tree, Header.NormalizeForUrl(sede));
    Carrera.FindSedePlain(tree, sede);
    CanonicalIdempotent(sede);
  }

  /** ... and, in that campus, to the career the raw career name finds. */
  lemma HeaderCarreraLinkFindsCareer(sedeInfo: Value, nombre: string)
    ensures Carrera.FindCarrera(sedeInfo, Header.NormalizeForUrl(nombre)) == Carrera.FindCarrera(sedeInfo, nombre)
  {
    CanonicalIdempotent(nombre);
  }

  /** A career card of the campus home page opens `/${sede}/Carrera/${title
      without whitespace}`; the path splits back into the raw campus segment
      and the title without whitespace, from which the career page finds the
      career the full title names (`Carrera.LinkWithoutSpacesFindsSame`). */
  lemma OfertaCardPathSplit(sede: string, title: string)
    requires '/' !in sede && '/' !in title
    ensures Oferta.CareerPath(sede, Str(title)).Ok?
    ensures Split(Oferta.CareerPath(sede, Str(title)).value, '/') == ["", sede, "Carrera", RemoveSpace(title)]
  {
    var rest := RemoveSpace(title);
    var path := "/" + sede + "/" + "Carrera" + "/" + rest;
    assert Split(path, '/') == ["", sede, "Carrera", rest] by {
      assert '/' !in rest;
      Header.SplitThreeSegments(sede, "Carrera", rest);
    }
    assert Oferta.CareerPath(sede, Str(title)) == Ok(path) by {
      assert "/" + sede + "/Carrera/" + rest == path;
    }
  }

  /** A segment under which the home page finds a campus also finds a
      campus on the career page: the career page's comparison is coarser. */
  lemma CarreraFindsWhereHomeFinds(tree: Tree, seg: string)
    requires Home.FindSede(tree, seg).Some?
    ensures Carrera.FindSede(tree, seg).Some?
  {
    Home.FixedExtendsAsWritten(tree, seg);
    var i :| 0 <= i < |tree| && Canonical(tree[i].key) == Canonical(seg);
    Carrera.SedeSegmentSlug(seg);
    assert Carrera.NormalizeText(tree[i].key) == Carrera.NormalizeText(Carrera.SedeSegment(seg));
  }

  /** The header and the program page build the same program link. */
  lemma ProgramLinksAgree(sede: string, nombre: string)
    ensures Interaccion.ProgramPath(sede, Str(nombre)) == Ok(Header.ProgramaPath(sede, nombre))
  {
    var a, b := Interaccion.NormalizeText(sede), Interaccion.NormalizeText(nombre);
    SlugsAgree(sede);
    SlugsAgree(nombre);
    assert Interaccion.ProgramSegment == Header.InteraccionSegment;
  }

  /** The header's "Más" link names the campus by its slug, and the page finds
      the same campus record from it. */
  lemma MasLinkKeepsCampus(tree: Tree, sede: string, target: string)
    requires '/' !in sede && '/' !in target
    ensures Split(Header.MasPath(sede, target), '/') ==
      ["", Header.NormalizeForUrl(sede), Header.MasSegment, Header.NormalizeForUrl(target)]
    ensures SeccionMas.SedeInfo(tree, Header.NormalizeForUrl(sede)) == SeccionMas.SedeInfo(tree, sede)
  {
    Header.MasPathSplit(sede, target);
    CanonicalIdempotent(sede);
  }
}
