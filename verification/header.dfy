/** src/components/Header.jsx: the navigation bar. Its URL normaliser, the
    paths its menu entries navigate to, the open-dropdown map, and the two
    rules `handleScroll` applies: the logo colour and the active section. The
    scroll position and section geometry are inputs here. */
module Header {
  import opened Wrappers
  import opened Text

  // ---------------------------------------------------------------------------
  // Normaliser
  // ---------------------------------------------------------------------------

  /** `normalizeForUrl`: NFD, drop U+0300..U+036F, drop `\s`, lowercase. */
  function NormalizeForUrl(text: string): (r: string)
    ensures forall i :: 0 <= i < |r| ==> !IsSpace(r[i]) && !IsMark(r[i])
    ensures '/' !in text ==> '/' !in r
  {
    CanonicalIsCanonical(text);
    CanonicalNoSlash(text);
    LowerStr(RemoveSpace(StripMarks(Nfd(text))))
  }

  lemma NormalizeForUrlIdempotent(text: string)
    ensures NormalizeForUrl(NormalizeForUrl(text)) == NormalizeForUrl(text)
  {
    CanonicalIdempotent(text);
  }

  // ---------------------------------------------------------------------------
  // Navigation targets
  // ---------------------------------------------------------------------------

  /** `handleClickInicio`: a missing or empty campus segment is falsy. */
  function InicioPath(sede: Option<string>): string {
    match sede
    case Some(s) => if s != "" then "/" + NormalizeForUrl(s) else "/"
    case None => "/"
  }

  /** The fixed middle segments of the menu's routes. */
  const CarreraSegment: string := "carrera"
  const MasSegment: string := "mas"
  const InteraccionSegment: string := "interaccion"

  function CarreraPath(sede: string, nombre: string): string {
    "/" + NormalizeForUrl(sede) + "/" + CarreraSegment + "/" + NormalizeForUrl(nombre)
  }

  function SubSedePath(sub: string): string {
    "/" + NormalizeForUrl(sub)
  }

  function MasPath(sede: string, target: string): string {
    "/" + NormalizeForUrl(sede) + "/" + MasSegment + "/" + NormalizeForUrl(target)
  }

  function ProgramaPath(sede: string, nombre: string): string {
    "/" + NormalizeForUrl(sede) + "/" + InteraccionSegment + "/" + NormalizeForUrl(nombre)
  }

  /** A three-segment path splits back into its segments when the segments
      hold no "/". */
  lemma {:induction false} SplitThreeSegments(a: string, mid: string, b: string)
    requires '/' !in a && '/' !in mid && '/' !in b
    ensures Split("/" + a + "/" + mid + "/" + b, '/') == ["", a, mid, b]
  {
    var tail := mid + "/" + b;
    assert "/" + a + "/" + mid + "/" + b == [] + ['/'] + (a + ['/'] + tail);
    SplitConcat([], a + ['/'] + tail, '/');
    SplitConcat(a, tail, '/');
    assert tail == mid + ['/'] + b;
    SplitConcat(mid, b, '/');
    SplitNoSeparator(a, '/');
    SplitNoSeparator(mid, '/');
    SplitNoSeparator(b, '/');
    assert Split([], '/') == [""];
  }

  /** The career, "más" and program targets are three-segment paths whose
      outer segments are the normalised campus and entry names. */
  lemma CarreraPathSplit(sede: string, nombre: string)
    requires '/' !in sede && '/' !in nombre
    ensures Split(CarreraPath(sede, nombre), '/') == ["", NormalizeForUrl(sede), CarreraSegment, NormalizeForUrl(nombre)]
  {
    SplitThreeSegments(NormalizeForUrl(sede), CarreraSegment, NormalizeForUrl(nombre));
  }

  lemma MasPathSplit(sede: string, target: string)
    requires '/' !in sede && '/' !in target
    ensures Split(MasPath(sede, target), '/') == ["", NormalizeForUrl(sede), MasSegment, NormalizeForUrl(target)]
  {
    SplitThreeSegments(NormalizeForUrl(sede), MasSegment, NormalizeForUrl(target));
  }

  lemma ProgramaPathSplit(sede: string, nombre: string)
    requires '/' !in sede && '/' !in nombre
    ensures Split(ProgramaPath(sede, nombre), '/') == ["", NormalizeForUrl(sede), InteraccionSegment, NormalizeForUrl(nombre)]
  {
    SplitThreeSegments(NormalizeForUrl(sede), InteraccionSegment, NormalizeForUrl(nombre));
  }

  /** The home target is "/" alone or a single normalised segment. */
  lemma InicioPathSplit(sede: Option<string>)
    requires sede.Some? ==> '/' !in sede.value
    ensures sede.None? || sede == Some("") ==> Split(InicioPath(sede), '/') == ["", ""]
    ensures sede.Some? && sede.value != "" ==> Split(InicioPath(sede), '/') == ["", NormalizeForUrl(sede.value)]
  {
    var seg := if sede.Some? && sede.value != "" then NormalizeForUrl(sede.value) else "";
    assert InicioPath(sede) == [] + ['/'] + seg;
    SplitConcat([], seg, '/');
    SplitNoSeparator(seg, '/');
  }

  // ---------------------------------------------------------------------------
  // Dropdowns
  // ---------------------------------------------------------------------------

  /** `openDropdowns`: submenu level to the name of the open entry, or `null`
      (None) once closed. The object's keys are the decimal levels, read back
      with `parseInt`, so they are modelled as the levels themselves. */
  type Dropdowns = map<nat, Option<string>>

  /** `handleOpenDropdown(name, level)`. */
  function OpenDropdown(open: Dropdowns, name: string, level: nat): (r: Dropdowns)
    ensures level in r && r[level] == Some(name)
    ensures forall k :: k != level ==> (k in r <==> k in open)
    ensures forall k :: k in open && k != level ==> r[k] == open[k]
  {
    open[level := Some(name)]
  }

  /** `handleCloseDropdown(level)`: every existing entry at `level` or deeper
      becomes `null`; shallower entries are kept and no key is added. */
  function CloseDropdown(open: Dropdowns, level: nat): (r: Dropdowns)
    ensures r.Keys == open.Keys
    ensures forall k :: k in r && k >= level ==> r[k] == None
    ensures forall k :: k in r && k < level ==> r[k] == open[k]
  {
    map k | k in open :: if k >= level then None else open[k]
  }

  /** Closing from a level and reopening it leaves the deeper levels closed. */
  lemma CloseThenOpen(open: Dropdowns, name: string, level: nat)
    ensures var r := OpenDropdown(CloseDropdown(open, level), name, level);
      && r[level] == Some(name)
      && forall k :: k in r && k > level ==> r[k] == None
  {
  }

  /** Closing is idempotent, and closing from level 0 closes every entry. */
  lemma CloseDropdownFacts(open: Dropdowns, level: nat)
    ensures CloseDropdown(CloseDropdown(open, level), level) == CloseDropdown(open, level)
    ensures forall k :: k in CloseDropdown(open, 0) ==> CloseDropdown(open, 0)[k] == None
  {
  }

  /** Opening a level and then closing the levels below it keeps it open. */
  lemma OpenSurvivesDeeperClose(open: Dropdowns, name: string, level: nat)
    ensures CloseDropdown(OpenDropdown(open, name, level), level + 1)[level] == Some(name)
  {
  }

  // ---------------------------------------------------------------------------
  // Logo colour
  // ---------------------------------------------------------------------------

  /** `.filter(Boolean)` on strings: every non-empty segment, as often as it
      occurs, and no empty one. */
  function NonEmpty(parts: seq<string>): (r: seq<string>)
    ensures |r| <= |parts|
    ensures forall s :: s in r <==> s in parts && s != ""
    ensures multiset(r) == multiset(parts)["" := 0]
    ensures |r| == |parts| - multiset(parts)[""]
    decreases |parts|
  {
    if |parts| == 0 then []
    else
      assert parts == [parts[0]] + parts[1..];
      (if parts[0] == "" then [] else [parts[0]]) + NonEmpty(parts[1..])
  }

  lemma NonEmptyOne(x: string)
    ensures NonEmpty([x]) == (if x == "" then [] else [x])
  {
    assert [x][1..] == [];
  }

  /** Filtering keeps the order: the segments of a concatenation are the
      segments of each part, in turn. */
  lemma {:induction false} NonEmptyConcat(a: seq<string>, b: seq<string>)
    ensures NonEmpty(a + b) == NonEmpty(a) + NonEmpty(b)
    decreases |a|
  {
    if |a| > 0 {
      assert (a + b)[0] == a[0] && (a + b)[1..] == a[1..] + b;
      NonEmptyConcat(a[1..], b);
    } else {
      assert a + b == b;
    }
  }

  /** `pathParts` of `handleScroll`: the non-empty "/"-separated segments,
      each normalised. */
  function PathParts(pathname: string): (parts: seq<string>)
    ensures |parts| == |NonEmpty(Split(pathname, '/'))|
  {
    var raw := NonEmpty(Split(pathname, '/'));
    seq(|raw|, i requires 0 <= i < |raw| => NormalizeForUrl(raw[i]))
  }

  /** "white", or the menu background colour `#001a66`. */
  datatype LogoColor = White | MenuBlue

  /** The logo is white on the home page and on a campus page; deeper it is
      white only once the page has scrolled. */
  function Logo(pathname: string, scrollY: int): (c: LogoColor)
    ensures c == White <==> |NonEmpty(Split(pathname, '/'))| <= 1 || scrollY > 0
  {
    var isMainOrSoloSede := |PathParts(pathname)| <= 1;
    if isMainOrSoloSede then White else if scrollY > 0 then White else MenuBlue
  }

  /** After "Inicio" the logo is white whatever the scroll position. */
  lemma LogoOnInicio(sede: Option<string>, scrollY: int)
    requires sede.Some? ==> '/' !in sede.value
    ensures Logo(InicioPath(sede), scrollY) == White
  {
    InicioPathSplit(sede);
    if sede.Some? && sede.value != "" {
      assert NonEmpty(["", NormalizeForUrl(sede.value)]) == NonEmpty([NormalizeForUrl(sede.value)]);
    } else {
      assert NonEmpty(["", ""]) == NonEmpty([""]);
    }
  }

  /** On a career page of a campus whose name does not normalise to "" the
      logo follows the scroll position. */
  lemma LogoOnCarrera(sede: string, nombre: string, scrollY: int)
    requires '/' !in sede && '/' !in nombre
    requires NormalizeForUrl(sede) != ""
    ensures Logo(CarreraPath(sede, nombre), scrollY) == (if scrollY > 0 then White else MenuBlue)
  {
    CarreraPathSplit(sede, nombre);
    CarreraPartsCount(NormalizeForUrl(sede), NormalizeForUrl(nombre));
  }

  /** A career link with a non-empty campus slug has at least two non-empty
      segments. */
  lemma CarreraPartsCount(a: string, b: string)
    requires a != ""
    ensures |NonEmpty(["", a, CarreraSegment, b])| >= 2
  {
    var parts := ["", a, CarreraSegment, b];
    assert parts == (([""] + [a]) + [CarreraSegment]) + [b];
    NonEmptyConcat(([""] + [a]) + [CarreraSegment], [b]);
    NonEmptyConcat([""] + [a], [CarreraSegment]);
    NonEmptyConcat([""], [a]);
    NonEmptyOne("");
    NonEmptyOne(a);
    NonEmptyOne(CarreraSegment);
  }

  // ---------------------------------------------------------------------------
  // Active section
  // ---------------------------------------------------------------------------

  /** A `section[id]` element: its id and its `offsetTop`/`offsetHeight`. */
  datatype Section = Section(id: string, offsetTop: int, offsetHeight: int)

  /** The window `[offsetTop - 100, offsetTop - 100 + offsetHeight)` holds the
      scroll position. */
  predicate InView(s: Section, scrollY: int) {
    s.offsetTop - 100 <= scrollY < s.offsetTop - 100 + s.offsetHeight
  }

  /** The section the menu marks when no window holds the scroll position. */
  const FirstSection: string := "inicio"

  /** The section `handleScroll` ends on, read from the end of the list: the
      last section whose window holds the scroll position, normalised;
      `FirstSection` if none does. */
  function Active(sections: seq<Section>, scrollY: int): string {
    if |sections| == 0 then FirstSection
    else if InView(sections[|sections| - 1], scrollY) then NormalizeForUrl(sections[|sections| - 1].id)
    else Active(sections[..|sections| - 1], scrollY)
  }

  /** When no window holds the position, `Active` is the default. */
  lemma {:induction false} ActiveNoneInView(sections: seq<Section>, scrollY: int)
    requires forall i :: 0 <= i < |sections| ==> !InView(sections[i], scrollY)
    ensures Active(sections, scrollY) == FirstSection
  {
    if |sections| > 0 {
      var init := sections[..|sections| - 1];
      assert forall i :: 0 <= i < |init| ==> init[i] == sections[i];
      ActiveNoneInView(init, scrollY);
    }
  }

  /** Otherwise `Active` is the last section in document order whose window
      holds the position. */
  lemma {:induction false} ActiveLastInView(sections: seq<Section>, scrollY: int, i: nat)
    requires i < |sections| && InView(sections[i], scrollY)
    requires forall j :: i < j < |sections| ==> !InView(sections[j], scrollY)
    ensures Active(sections, scrollY) == NormalizeForUrl(sections[i].id)
  {
    if i < |sections| - 1 {
      var init := sections[..|sections| - 1];
      assert init[i] == sections[i];
      assert forall j :: i < j < |init| ==> init[j] == sections[j];
      ActiveLastInView(init, scrollY, i);
    }
  }

  /** The `forEach` of `handleScroll`: the last section in document order
      whose window holds the scroll position, normalised; "inicio" if none. */
  method ActiveSection(sections: seq<Section>, scrollY: int) returns (current: string)
    ensures (forall i :: 0 <= i < |sections| ==> !InView(sections[i], scrollY)) ==> current == FirstSection
    ensures forall i ::
      (0 <= i < |sections| && InView(sections[i], scrollY) &&
       (forall j :: i < j < |sections| ==> !InView(sections[j], scrollY)))
      ==> current == NormalizeForUrl(sections[i].id)
  {
    current := FirstSection;
    var k := 0;
    while k < |sections|
      invariant 0 <= k <= |sections|
      invariant current == Active(sections[..k], scrollY)
    {
      var section := sections[k];
      var top := section.offsetTop - 100;
      var bottom := top + section.offsetHeight;
      assert sections[..k + 1][..k] == sections[..k];
      if scrollY >= top && scrollY < bottom {
        current := NormalizeForUrl(section.id);
      }
      k := k + 1;
    }
    assert sections[..k] == sections;
    if forall i :: 0 <= i < |sections| ==> !InView(sections[i], scrollY) {
      ActiveNoneInView(sections, scrollY);
    }
    forall i | 0 <= i < |sections| && InView(sections[i], scrollY) &&
        (forall j :: i < j < |sections| ==> !InView(sections[j], scrollY))
      ensures current == NormalizeForUrl(sections[i].id)
    {
      ActiveLastInView(sections, scrollY, i);
    }
  }
}
