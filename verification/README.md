# NuevaWeb campus pages: how URL segments find campus data

The NuevaWeb site serves one set of pages for many university campuses
("sedes"). Every page reads one or two URL segments: the campus, and then a
career, a section, a program or a service type. It turns them back into an
entry of a single JSON data tree keyed by campus name. Each page does this with
its own copy of a text normaliser. It takes the first key whose normalised form
matches, dispatches on the section name, and falls back to a not-found view.

This project models that logic in Dafny, page by page, with each normaliser
kept exactly as its page writes it. It then proves what each page guarantees,
and where the variants agree and differ:

- which links built by one page are resolved by another;
- which campus names a page can never reach.

Around it sit the small pure helpers:

- the career-grid row splitter;
- the header's dropdown map, logo colour and active-section rule;
- the virtual-services list;
- the alumni totals.

Modules:

- `Wrappers`: `Option` and the `Outcome` of an expression that may throw a
  `TypeError`.
- `Text`: the character classes and string operations the normalisers are
  built from:
  - NFD decomposition, with a table of the precomposed Latin letters Spanish
    uses;
  - removal of U+0300–U+036F;
  - whitespace removal and case mapping, on ASCII and most of Latin-1;
  - the lemmas about them, including `Canonical`, the
    NFD/strip/no-space/lowercase slug.
- `Js`: JSON values and the JavaScript semantics the pages rely on:
  - truthiness and `||`;
  - optional chaining;
  - `Object.keys(...).find(...)` over the data tree, as an ordered sequence of
    key/record pairs;
  - `Array.prototype.find`/`map` with callbacks that may throw;
  - string conversion.
- One module per page: `Oferta`, `Header`, `Investigacion`, `SeccionMas`,
  `RedAlumni`, `Interaccion`, `Carrera`, `Home`, `ServiciosVirtuales`,
  `Alumni`.
- `Variants`: the lemmas that connect the pages.

Inputs:

- URL segments are parameters.
- A segment that may be missing is an `Option`; this includes every segment
  of a page that no route of `src/App.jsx` renders.
- Window geometry (scroll position, section offsets) is given as integers.
- The YouTube regex's capture group is a parameter.

## Model

| member | source | states |
|---|---|---|
| Oferta.DividirEnFilas | src/components/Oferta.jsx:13-21 | at most two rows whose concatenation is the input in order; one row equal to the input for n ≤ 3; for n > 3, rows of n/2 and n/2 when even, ceil(n/2) then floor(n/2) when odd, the first never shorter and at most one longer |
| Oferta.Normalize | src/components/Oferta.jsx:42 | the result holds no whitespace and no upper-case letter |
| Oferta.NormalizeKeepsAccents | src/components/Oferta.jsx:42 | every non-space character of the input, accented or not, survives lowercased: accents are not stripped |
| Oferta.NormalizeIdempotent | src/components/Oferta.jsx:42 | normalising twice equals normalising once |
| Oferta.FindSede | src/components/Oferta.jsx:45-47 | the key found has the normal form of the segment, a missing segment counting as ""; none is found exactly when no key has it |
| Oferta.CardOf | src/components/Oferta.jsx:55-63 | a card keeps the entry's `title` and `imagen`; a nullish entry throws |
| Oferta.Effect | src/components/Oferta.jsx:49-73 | with no match or a falsy record the state is unchanged; otherwise the cards map one-to-one, in order, onto the `oferta` entries with their titles; the background is a file exactly when `imagenes.fondoOferta` is truthy, and then it is that name; it throws exactly when `oferta` is truthy and is not an array or holds a nullish entry |
| Oferta.FondoOf | src/components/Oferta.jsx:68-72 | the background is the file named by `imagenes.fondoOferta` when that is truthy, the default otherwise |
| Oferta.CareerPath | src/components/Oferta.jsx:176-180 | a card title that is not a string throws; otherwise the path is "/" + sede + "/Carrera/" + a remainder with no whitespace whose lowercase is the page's normal form of the title and whose slug is the title's slug |
| Header.NormalizeForUrl | src/components/Header.jsx:24-29 | the result holds no whitespace and no U+0300–U+036F mark, and no "/" unless the input had one |
| Header.NormalizeForUrlIdempotent | src/components/Header.jsx:24-29 | normalising a normalised string changes nothing |
| Header.InicioPathSplit | src/components/Header.jsx:72-74 | the home link is "/" for a missing or empty campus, otherwise "/" followed by the one normalised campus segment |
| Header.CarreraPathSplit | src/components/Header.jsx:76-78 | the career link splits back into the normalised campus, "carrera" and the normalised career name |
| Header.MasPathSplit | src/components/Header.jsx:84-86 | the "más" link splits back into the normalised campus, "mas" and the normalised target |
| Header.ProgramaPathSplit | src/components/Header.jsx:88-92 | the program link splits back into the normalised campus, "interaccion" and the normalised program name |
| Header.OpenDropdown | src/components/Header.jsx:112-113 | the level maps to the opened name; every other level keeps its entry and no other key appears or disappears |
| Header.CloseDropdown | src/components/Header.jsx:115-120 | same keys; every level at or below the closed one becomes null; shallower levels keep their entries |
| Header.CloseThenOpen | src/components/Header.jsx:112-120 | closing from a level and reopening it leaves that level open and every deeper level closed |
| Header.CloseDropdownFacts | src/components/Header.jsx:115-120 | closing is idempotent, and closing from level 0 closes everything |
| Header.OpenSurvivesDeeperClose | src/components/Header.jsx:112-120 | closing the levels below an opened level keeps it open |
| Header.NonEmpty | src/components/Header.jsx:45-47 | `filter(Boolean)` keeps every non-empty segment as often as it occurs and drops every empty one, so the count is the number of segments less the empty ones |
| Header.NonEmptyConcat | src/components/Header.jsx:45-47 | filtering keeps the order: the segments of a concatenation are those of each part in turn |
| Header.PathParts | src/components/Header.jsx:45-48 | one normalised part per non-empty segment |
| Header.Logo | src/components/Header.jsx:45-53 | white exactly when the path has at most one non-empty segment or the page has scrolled |
| Header.LogoOnInicio | src/components/Header.jsx:45-53 | after the home link the logo is white whatever the scroll |
| Header.LogoOnCarrera | src/components/Header.jsx:45-53 | on a career link the logo is white exactly when scrolled |
| Header.ActiveSection | src/components/Header.jsx:55-63 | "inicio" when no section window holds the scroll position; otherwise the normalised id of the last section, in document order, whose window does |
| Header.ActiveNoneInView | src/components/Header.jsx:55-63 | read from the end of the list, no window holding the position leaves "inicio" |
| Header.ActiveLastInView | src/components/Header.jsx:55-63 | read from the end of the list, the active section is the last one in document order whose window holds the position |
| Investigacion.NormalizeText | src/components/investigacion.jsx:36-37 | undefined passes through; otherwise the result keeps exactly the input's whitespace and, with whitespace removed, is the slug of the input |
| Investigacion.FindSede | src/components/investigacion.jsx:60-64 | the key found normalises like the segment; none is found exactly when no key does |
| Investigacion.FoundSedeSameSpaces | src/components/investigacion.jsx:60-64 | a key is found only for a segment with the same slug and the same whitespace |
| Investigacion.SameSedeWithoutSpaces | src/components/investigacion.jsx:60-64 | for a key and segment without whitespace, matching is slug equality |
| Investigacion.GetTitle | src/components/investigacion.jsx:32-34 | the table entry when the key has one; otherwise a title of the key's length whose first character is the key's first uppercased and whose rest is the key's rest |
| Investigacion.GetTitleRoundTrip | src/components/investigacion.jsx:32-34 | lowercasing the title of a lowercase key not in the table gives the key back |
| Investigacion.Tabs | src/components/investigacion.jsx:104-107 | one tab per key of the block, in key order, keyed by the lowercased key and labelled with its title |
| Investigacion.Contenido | src/components/investigacion.jsx:109-145 | null for a missing or unknown section; "bienvenida" is a one-element list; each other known section reads its field |
| Investigacion.Render | src/components/investigacion.jsx:93-152 | "Sede no encontrada" exactly when the campus record is falsy; the no-research message exactly when the record exists and the block does not; with both, NotFound exactly when the content of the lowercased section is falsy; NotFound carries the raw segment; a page shows truthy content |
| Investigacion.BienvenidaAlwaysRenders | src/components/investigacion.jsx:116-120 | "bienvenida" in any case renders a page once the block exists |
| Investigacion.UnknownSectionNotFound | src/components/investigacion.jsx:145-152 | a missing or unrecognised section renders NotFound with the segment |
| Investigacion.FieldRoundTrip | src/components/investigacion.jsx:109-145 | each field name, lowercased, is a recognised section that reads that same field, "revistaSalud" included |
| Investigacion.TabResolvesToItsField | src/components/investigacion.jsx:104-145 | a tab for a recognised field resolves to that field's content |
| SeccionMas.Capitalize | src/components/SeccionMas.jsx:9-10 | only the first character is uppercased; the rest and the empty string are unchanged; a non-string throws |
| SeccionMas.NormalizeText | src/components/SeccionMas.jsx:12-17 | the result is its own slug |
| SeccionMas.FindSede | src/components/SeccionMas.jsx:19-23 | the key found normalises like the segment; none is found exactly when no key does |
| SeccionMas.Apartado | src/components/SeccionMas.jsx:39-48 | a missing list gives ""; a successful result is truthy or "" |
| SeccionMas.ApartadoFirstMatch | src/components/SeccionMas.jsx:39-48 | the entry taken is the first whose lowercased title contains the fragment, its content defaulting to "" |
| SeccionMas.ApartadoNoMatch | src/components/SeccionMas.jsx:39-48 | no matching title gives "" |
| SeccionMas.Lista | src/components/SeccionMas.jsx:35-54 | three entries titled Misión, Visión, Filosofía in that order, each with its content |
| SeccionMas.Unificado | src/components/SeccionMas.jsx:33-55 | fails exactly when reading a `misionvision` title throws; otherwise the three-entry list with non-missing content |
| SeccionMas.Seccion | src/components/SeccionMas.jsx:57-72 | the four named sections read their field; anything else is null |
| SeccionMas.Resolve | src/components/SeccionMas.jsx:24-96 | campus check first, then the `mas` block; with both it is missing or found, found exactly when the dispatched content is truthy; it throws exactly when the combined list throws or a found section's truthy `titulo` is not a string; a missing result has falsy content; the unified sections carry the fixed heading |
| SeccionMas.UnificadoNeverMissing | src/components/SeccionMas.jsx:33-55 | "misionvision" and "filosofia" always reach the page under the fixed heading unless a title read throws |
| SeccionMas.HeadingOfSeccion | src/components/SeccionMas.jsx:94-96 | the heading is the capitalised `titulo`, or the capitalised raw segment when the title is falsy |
| SeccionMas.RenderIn | src/components/SeccionMas.jsx:30-96 | "Sede no encontrada" exactly without a campus record; the no-"Más" heading exactly for a campus without `mas`; NotFound exactly when the content is missing, with the message built from the record and the content; a found section renders its heading and content |
| SeccionMas.UnknownSeccionMissing | src/components/SeccionMas.jsx:57-72 | an unknown section resolves to a missing null content |
| SeccionMas.KnownSeccionShown | src/components/SeccionMas.jsx:57-96 | "bienvenida", "historia", "reglamento" or "autoridades" with truthy content renders that content, headed by its `titulo` capitalised or by the capitalised segment when the title is falsy |
| SeccionMas.MensajeIgnoresRequest | src/components/SeccionMas.jsx:74 | as written, every unknown section of an object campus gets one and the same message |
| SeccionMas.MensajeFixed | src/components/SeccionMas.jsx:74 | the corrected message holds the campus and the section at fixed positions |
| SeccionMas.RenderFixedIn | src/components/SeccionMas.jsx:74-96 | the corrected page differs from the page as written only in the NotFound message |
| SeccionMas.MensajeFixedInjective | src/components/SeccionMas.jsx:74 | two different sections never share a corrected message |
| RedAlumni.NormalizeArg | src/components/RedAlumni.jsx:77-78 | a missing argument gives ""; the result is its own slug; a string that is its own slug is unchanged |
| RedAlumni.NormalizeValue | src/components/RedAlumni.jsx:77-78 | undefined gives ""; a string is normalised; `null` and any other non-string throw |
| RedAlumni.FindSede | src/components/RedAlumni.jsx:83-85 | the key found normalises like the segment; none is found exactly when no key does |
| RedAlumni.FondoKey | src/components/RedAlumni.jsx:30-35 | only a key equal to the segment up to case is found; a missing or empty segment finds none; a present, non-empty segment finds none exactly when no key equals it up to case |
| RedAlumni.Fondo | src/components/RedAlumni.jsx:35-46 | a background exists only for a found key with a truthy `imagenes.fondoPrincipal`, and for such a key it is that value |
| RedAlumni.FondoOfFirstMatch | src/components/RedAlumni.jsx:30-46 | the background search takes the first key equal to the segment up to case, and shows that record's image when it is truthy, the default otherwise |
| RedAlumni.FondoImpliesContent | src/components/RedAlumni.jsx:30-47 | whenever the background search finds a campus, the content search finds one too |
| RedAlumni.NombreKey | src/components/RedAlumni.jsx:88-91 | a tab key is the normalised `nombre`; a nullish career throws |
| RedAlumni.TabOf | src/components/RedAlumni.jsx:88-91 | a career tab is keyed by its normalised name and labelled by its `nombre` |
| RedAlumni.Tabs | src/components/RedAlumni.jsx:88-91 | without alumni data only the "general" tab; any tab list starts with it; a present record whose `carreras` is not an array throws |
| RedAlumni.TabsOfCareers | src/components/RedAlumni.jsx:88-91 | after "general", exactly one tab per career in order, keyed by the normalised `nombre` and labelled by the `nombre` itself |
| RedAlumni.TabKeyCanonical | src/components/RedAlumni.jsx:77-91 | every tab key is already its own normal form |
| RedAlumni.Contenido | src/components/RedAlumni.jsx:94-99 | "general" always gives truthy content; without data any other segment is undefined; otherwise it is the first career whose normalised name matches |
| RedAlumni.Render | src/components/RedAlumni.jsx:80-106 | it throws exactly when the tab list or the content search throws; otherwise NotFound exactly when the content is falsy, with the message naming the raw section and campus; a page carries the tab list and the content found |
| RedAlumni.GeneralAlwaysRenders | src/components/RedAlumni.jsx:95-96 | "general" in any spelling that normalises to it renders the Red Alumni page |
| RedAlumni.CareerTabResolves | src/components/RedAlumni.jsx:88-99 | every career tab key resolves to truthy content |
| RedAlumni.TabKeysResolve | src/components/RedAlumni.jsx:88-99 | each tab key is its own normal form, so clicking it resolves back to content |
| Interaccion.NormalizeText | src/components/inteaccion.jsx:40-41 | the result is its own slug |
| Interaccion.NormalizeTextIdempotent | src/components/inteaccion.jsx:40-41 | normalising twice equals normalising once |
| Text.CanonicalOfComposed | src/components/inteaccion.jsx:40-41 | an accented letter of the decomposition table keeps only its lowercased base letter in a slug |
| Text.CanonicalOfMark | src/components/inteaccion.jsx:40-41 | a combining mark of U+0300–U+036F contributes nothing to a slug |
| Text.CanonicalOfPlain | src/components/inteaccion.jsx:40-41 | any other non-whitespace character is kept, lowercased |
| Interaccion.NormalizeValue | src/components/inteaccion.jsx:40-41 | only strings normalise; anything else throws |
| Interaccion.NormalizeSegment | src/components/inteaccion.jsx:40-41 | a missing segment throws; a present one is normalised |
| Interaccion.FindSede | src/components/inteaccion.jsx:40-51 | a missing campus segment throws as soon as there is a key to compare; a present one finds a key that normalises like it, and none exactly when no key does |
| Interaccion.Find | src/components/inteaccion.jsx:48-55 | a throwing campus search throws; the campus record is the one found; a campus without `interaccion` has no program |
| Interaccion.TituloIsWithoutSegment | src/components/inteaccion.jsx:53-55 | without a program segment the comparison throws on every item |
| Interaccion.FindFirstPrograma | src/components/inteaccion.jsx:53-55 | the program is the first whose normalised title equals the normalised segment |
| Interaccion.Render | src/components/inteaccion.jsx:48-59 | it throws exactly when the search does; a missing campus is reported with the campus name before the program check; a missing program with the program name; otherwise a page with the campus record and the program found |
| Interaccion.MissingSedeReportedFirst | src/components/inteaccion.jsx:58 | no matching campus always gives the campus message |
| Interaccion.PageHasSegments | src/components/inteaccion.jsx:48-59 | a page is only ever shown when both segments are present |
| Interaccion.ShowsFirstPrograma | src/components/inteaccion.jsx:48-59 | with a truthy campus record, the page shows the first program whose normalised title equals the normalised segment, when that entry is truthy |
| Interaccion.ProgramPath | src/components/inteaccion.jsx:43-45 | the path is "/" + normalised campus + "/interaccion/" + normalised title; a non-string title throws |
| Interaccion.ProgramPathResolvesBack | src/components/inteaccion.jsx:43-55 | following the path finds what the raw campus and title find |
| Interaccion.IsActive | src/components/inteaccion.jsx:198-201 | a button is active exactly when its normalised title equals the normalised segment |
| Interaccion.ShownProgramIsActive | src/components/inteaccion.jsx:53-55 | the program shown has a present segment and is always the highlighted one |
| Carrera.NormalizeText | src/components/Carrera.jsx:19-20 | the result is its own slug |
| Carrera.SpaceBeforeCapitals | src/components/Carrera.jsx:23 | only spaces are inserted, so the segment without whitespace is unchanged, and every ASCII capital of the result has a space right before it |
| Carrera.CanonicalOfSpaceBeforeCapitals | src/components/Carrera.jsx:22-24 | inserting a space before each capital leaves the slug unchanged |
| Carrera.SedeSegmentSlug | src/components/Carrera.jsx:22-24 | the split and trimmed segment has the slug of the raw segment |
| Carrera.FindSede | src/components/Carrera.jsx:22-24 | the key found normalises like the rewritten segment; none exactly when no key does |
| Carrera.FindSedePlain | src/components/Carrera.jsx:22-24 | the camel-case lookup equals a plain normalised match on the raw segment |
| Carrera.FindCarrera | src/components/Carrera.jsx:26-29 | undefined without a campus; throws when the campus has no career list; a career found is in the list and matches |
| Carrera.FindCarreraFirst | src/components/Carrera.jsx:27-29 | the career is the first list entry whose normalised title matches |
| Carrera.LinkWithoutSpacesFindsSame | src/components/Carrera.jsx:27-29 | a card link whose title lost its whitespace finds the same career as the full title |
| Carrera.VideoId | src/components/Carrera.jsx:31-35 | throws exactly for a truthy non-string video; an id exists only when the capture has 11 characters, and then it is accepted |
| Carrera.Thumbnail | src/components/Carrera.jsx:37 | a thumbnail exists exactly when an id does, and embeds it between the fixed prefix and suffix |
| Carrera.Index | src/components/Carrera.jsx:79-87 | every tab has its place in the tab list |
| Carrera.Shown | src/components/Carrera.jsx:203-212 | the tab shown has the active key; none is shown exactly when no tab has it |
| Carrera.ShownRoundTrip | src/components/Carrera.jsx:79-212 | clicking a tab button sets the active key, and the tab found under that key is the tab clicked |
| Carrera.InitialTabShown | src/components/Carrera.jsx:13 | the initial active tab "mision" shows the Misión tab |
| Carrera.Render | src/components/Carrera.jsx:22-66 | it throws exactly when the career search or the video id throws; "Sede no encontrada" exactly for a missing campus, before the career check; with a campus, NotFound exactly when no career matches and a page whenever one does; a page carries the career, its video id, the thumbnail of that id and the shown tab |
| Carrera.ShowsFirstCarrera | src/components/Carrera.jsx:22-66 | with a campus record, the page shows the first career whose normalised title matches, with its video id and thumbnail |
| Home.KeyForm | src/pages/Home.jsx:15-17 | a key compared without whitespace |
| Home.FindSede | src/pages/Home.jsx:15-17 | the first key that, without whitespace and lowercased, equals the lowercased segment; none exactly when no key does |
| Home.SpacedSegmentNeverMatches | src/pages/Home.jsx:15-17 | a segment holding whitespace matches no key |
| Home.SedesLinkResolves | src/pages/Home.jsx:15-17 | the campus card link resolves to a key of the same form, to that key when no earlier key shares it |
| Home.Fields | src/pages/Home.jsx:25-30 | the six section fields in the page's order |
| Home.BlocksFrom | src/pages/Home.jsx:25-30 | blocks appear in increasing field order; a section block carries truthy data; a printed zero comes from a field equal to 0 |
| Home.BlocksFromCovers | src/pages/Home.jsx:25-30 | every field that renders has a block |
| Home.Blocks | src/pages/Home.jsx:25-30 | a field renders exactly when it is truthy or 0, in the fixed order inscripcion, oferta, sedes, alumni, requisitos, noticias |
| Home.BlocksOrdered | src/pages/Home.jsx:25-30 | a later block is always a later field |
| Home.RenderIn | src/pages/Home.jsx:19-30 | NotFound naming the segment exactly when the record is falsy; otherwise the blocks |
| Home.Render | src/pages/Home.jsx:15-30 | no match renders NotFound naming the segment; a page only for a matching key; NotFound exactly when the record found is falsy, otherwise the blocks of that record |
| Home.ShowsFirstMatch | src/pages/Home.jsx:15-30 | the first key whose key form is the lowercased segment decides the page: a truthy record renders its blocks |
| Home.KeyFormKeepsAccent | src/pages/Home.jsx:15-17 | an accented letter of a key survives the home page's comparison form |
| Home.InicioLinkLost | src/pages/Home.jsx:15-17 | as written, the header's home link never reaches a campus whose name holds an accented letter, while the card link does |
| Home.FindSedeFixed | src/pages/Home.jsx:15-17 | the corrected lookup matches by slug |
| Home.FixedResolvesLinks | src/pages/Home.jsx:15-17 | the corrected lookup finds the same campus from the header's link and from the card link as from the name |
| Home.FixedExtendsAsWritten | src/pages/Home.jsx:15-17 | the corrected lookup finds a campus wherever the lookup as written does |
| Home.RenderFixed | src/pages/Home.jsx:15-30 | the page as written over the corrected lookup |
| Home.FixedInicioKeepsPage | src/pages/Home.jsx:15-30 | with the corrected lookup, the home link shows the same page as the campus name |
| ServiciosVirtuales.Replace | src/components/ServiciosVirtuales.jsx:91-96 | the copy differs from the list only at the replaced index |
| ServiciosVirtuales.Render | src/components/ServiciosVirtuales.jsx:91-121 | "estudiante" and "docente" replace entry 0 with their service and set their title; entries 1–3 and the length are kept; every other value, compared exactly, is NotFound "Ruta no válida" |
| ServiciosVirtuales.PlaceholderNeverRendered | src/components/ServiciosVirtuales.jsx:61-67 | the placeholder never reaches a page |
| ServiciosVirtuales.TipoCaseSensitive | src/components/ServiciosVirtuales.jsx:95-117 | a capitalised type is not a valid route |
| Alumni.Plus | src/components/Alumni.jsx:93-94 | once the total is text it stays text; numbers add |
| Alumni.GraduadosOf | src/components/Alumni.jsx:93-94 | a campus figure is truthy or 0; a nullish record throws |
| Alumni.ReduceGraduados | src/components/Alumni.jsx:93-94 | throws exactly when some campus record is nullish |
| Alumni.ReduceGraduadosSums | src/components/Alumni.jsx:93-94 | with numeric figures the reduction is the integer sum of the figures, a missing one counting as 0 |
| Alumni.GraduadosTotal | src/components/Alumni.jsx:93-94 | starting from 0, the reduction over numeric figures is exactly their integer sum |
| Alumni.ReduceCarreras | src/components/Alumni.jsx:97-98 | throws exactly when some campus record is nullish |
| Alumni.ReduceCarrerasConcat | src/components/Alumni.jsx:97-98 | the career total adds up over the campuses |
| Alumni.OfertaCountOfList | src/components/Alumni.jsx:97-99 | a campus whose `oferta` is a list counts one career per entry |
| Alumni.CampusStats | src/components/Alumni.jsx:88-103 | graduates and description are the record's `alumni` values when truthy, else 0 and ""; the career count is the number of entries of an object or array `oferta`, 0 when it is falsy |
| Alumni.FiguresGeneral | src/components/Alumni.jsx:93-103 | the general figures are both reductions plus the fixed sentence; they throw exactly when a record is nullish |
| Alumni.Figures | src/components/Alumni.jsx:88-103 | "general" gives the totals; anything else gives the figures of the record under the raw segment |
| Alumni.GeneralFiguresSum | src/components/Alumni.jsx:93-99 | with numeric figures, "general" shows the sum of graduates and the career total |
| Alumni.AlumniMissesHomeCampus | src/components/Alumni.jsx:88-90 | as written, a campus whose name is not in link form shows zeros on the home page that resolved it |
| Alumni.FiguresFixed | src/components/Alumni.jsx:88-90 | the corrected figures are those of the record the home page resolved |
| Alumni.FixedShowsLinkedCampus | src/components/Alumni.jsx:88-90 | with the correction, a campus card link shows that campus's own figures |
| Variants.SlugsAgree | src/components/Header.jsx:24-29 | the header, career, "más", program and Red Alumni normalisers compute the same slug |
| Variants.HeaderCarreraLinkFindsCampus | src/components/Carrera.jsx:22-24 | the header's career link finds the campus the raw campus name finds |
| Variants.HeaderCarreraLinkFindsCareer | src/components/Carrera.jsx:27-29 | ... and the career the raw career name finds |
| Variants.OfertaCardPathSplit | src/components/Oferta.jsx:176-180 | a career card path splits into the raw campus, "Carrera" and the title without whitespace |
| Variants.CarreraFindsWhereHomeFinds | src/components/Carrera.jsx:22-24 | a segment the home page resolves is resolved by the career page too |
| Variants.ProgramLinksAgree | src/components/inteaccion.jsx:43-45 | the header and the program page build the same program link |
| Variants.MasLinkKeepsCampus | src/components/SeccionMas.jsx:19-24 | the header's "más" link finds the same campus record as the raw name |

## Left out

- Route matching in `src/App.jsx`. Segments are parameters; no model of the
  router exists, including that it matches `/Carrera/` against `/carrera/`
  without regard to case.
- All rendering, styling and animation, including the animated counter of
  `AnimatedCircle` (floating-point, timer-driven).
- DOM and window access: listeners, `offsetTop` reads, `scrollTo`.
  `Header.ActiveSection` and `Header.Logo` take the scroll position and section
  geometry as integers.
- Image loading through `require`/`require.context` and its fallbacks: the
  career plan images, the backgrounds and the card images. A card or a
  background keeps the image's name.
- The header's own menu-data effect, a raw `dataJson[sede]` read of the lists
  it shows (src/components/Header.jsx:32-37). It builds no link and resolves
  no page.
- The background effect of src/components/ServiciosVirtuales.jsx:29-57. It is
  the case-insensitive search already modelled as `RedAlumni.FondoKey`, feeding
  a bundler call.
- `localStorage` in src/context/SedeContext.jsx, the script injected by
  src/components/Noticias.jsx, and the WhatsApp link's `encodeURIComponent`.
- The YouTube regex engine. The captured group is an input, and only the
  11-character guard is modelled.
- Full Unicode. NFD decomposes exactly fourteen letters: Á É Í Ó Ú Ü Ñ and
  á é í ó ú ü ñ. Case mapping shifts the ASCII letters and U+00C0–U+00DE /
  U+00E0–U+00FE (except × and ÷) by 32, so `Text.Upper` leaves ß, ÿ and µ
  unchanged where JavaScript gives "SS", "Ÿ" and "Μ". Every other character is
  its own decomposition and case. JavaScript strings are UTF-16, and
  `charAt(0)`/`slice(1)` (src/components/SeccionMas.jsx:9-10,
  src/components/investigacion.jsx:32-34) and `match[2].length === 11`
  (src/components/Carrera.jsx:34) count code units; a Dafny `string` counts
  scalar values, so the two agree only on the Basic Multilingual Plane. The idempotence
  results rest on lowercasing never producing a mark, a space or a precomposed
  letter; real JavaScript breaks this for "İ".
- JSON numbers are integers: fractions and NaN in the data are not modelled.
  The JavaScript `+` of the alumni total models NaN and string concatenation
  as outcomes of `Alumni.Plus`.
- Properties inherited from `Object.prototype` and duplicate keys in the data
  file. The data tree is an ordered sequence of key/record pairs, already in
  `Object.keys` order.
- Purely static or cosmetic components: Sedes.jsx markers and hovers,
  Requisitos.jsx, Historia.jsx, Footer.jsx, Loader.jsx, 404.jsx,
  textoIncripcion.jsx, Inscripcion.jsx.
- Header.SubSedePath: the sub-campus link is modelled but has no lemma of its
  own. It is `InicioPath` for a present campus, and `Header.InicioPathSplit`
  covers that shape.
- Header.InicioPathSplit, Header.CarreraPathSplit, Header.MasPathSplit,
  Header.ProgramaPathSplit, Header.LogoOnInicio, Header.LogoOnCarrera,
  Variants.OfertaCardPathSplit, Variants.MasLinkKeepsCampus: the round trips
  require names without "/". `normalizeForUrl` keeps a "/", so a name holding
  one gives the link an extra segment and the router does not send it back to
  the same page.
- Interaccion, ServiciosVirtuales, Investigacion, RedAlumni: no route of
  `src/App.jsx` renders these pages (it imports only Header, Footer, Home,
  Carrera, SeccionMas and SeleccionarSede). Each is modelled with segments
  that may be missing.
- SeccionMas.Resolve, SeccionMas.RenderIn, SeccionMas.KnownSeccionShown,
  RedAlumni.Render, RedAlumni.CareerTabResolves, RedAlumni.GeneralAlwaysRenders,
  Carrera.Render, Carrera.ShowsFirstCarrera, Interaccion.Render,
  Interaccion.ShowsFirstPrograma: the outcome is that of the lookups and checks
  before the markup. Errors the markup itself raises are not modelled:
  - `contenido.map` on the "reglamento" and "autoridades" content
    (src/components/SeccionMas.jsx:153,178);
  - `contenido.lugaresTrabajo.map` / `contenido.convenios.map` of a career
    (src/components/RedAlumni.jsx:218,229);
  - `data.roles?.map` / `data.values?.map` on a non-array
    (src/components/Carrera.jsx:82-83);
  - `normalizeText(prog.titulo)` for every program button
    (src/components/inteaccion.jsx:193-199).

  Where these members promise a Page, the real component can still throw while
  rendering it.
- Alumni.Figures: the "general" branch cannot be reached from the routes, since
  Home passes no section. It is modelled as written anyway.

## Findings

| source | as written | input that shows it | evidently intended | confidence | as-written member | corrected member |
|---|---|---|---|---|---|---|
| src/components/SeccionMas.jsx:74 | the NotFound message interpolates the campus record and the falsy content | any unknown section of an existing campus, e.g. `/potosi/mas/foo`, reads `En la sede "[object Object]" no existe el apartado "null".` | name the requested campus and section | not executed | SeccionMas.MensajeIgnoresRequest | SeccionMas.MensajeFixedInjective |
| src/pages/Home.jsx:15-17 | the home page removes whitespace and lowercases but keeps accents, while the header's "Inicio" link (src/components/Header.jsx:72-74) strips them | a campus keyed "Potosí": the card link `/potosí` finds it; "Inicio" goes to `/potosi`, which renders NotFound | compare by the same slug the header builds | not executed | Home.InicioLinkLost | Home.FixedResolvesLinks |
| src/components/Alumni.jsx:88-90 | the figures read `dataJson[sede]` with the raw segment, although the home page (src/pages/Home.jsx:15-19,28) resolved the campus without case or whitespace | a campus keyed "Santa Cruz" reached by its card link `/santacruz` shows 0 graduates, 0 careers and no description | use the record the home page resolved | not executed | Alumni.AlumniMissesHomeCampus | Alumni.FixedShowsLinkedCampus |
