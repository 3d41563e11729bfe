/** src/components/Carrera.jsx: the career page. The campus segment is split
    at its capitals and trimmed before the slug comparison; the career is
    the first entry of the campus's `carrera` list whose title slug is the
    segment's slug. The page also derives the YouTube id and thumbnail of the
    career's video and shows the content of the active tab. The route
    `/:sede/Carrera/:carrera` supplies both segments as strings. */
module Carrera {
  import opened Wrappers
  import opened Js
  import opened Text

  // ---------------------------------------------------------------------------
  // Normaliser and the camel-case campus segment
  // ---------------------------------------------------------------------------

  /** `normalizeText`: NFD, drop U+0300..U+036F, drop `\s+`, lowercase. */
  function NormalizeText(text: string): (r: string)
    ensures IsCanonical(r)
  {
    CanonicalIsCanonical(text);
    LowerStr(RemoveSpace(StripMarks(Nfd(text))))
  }

  /** One character of `s.replace(/([A-Z])/g, " $1")`: an ASCII capital
      gets a space in front of it. */
  function Spaced(c: char): string {
    if 'A' <= c <= 'Z' then [' ', c] else [c]
  }

  /** `s.replace(/([A-Z])/g, " $1")`: a space before every ASCII capital.
      Only spaces are inserted, and every capital of the result has one in
      front of it. */
  function SpaceBeforeCapitals(s: string): (r: string)
    ensures |r| >= |s|
    ensures RemoveSpace(r) == RemoveSpace(s)
    ensures forall i :: 0 <= i < |r| && 'A' <= r[i] <= 'Z' ==> i > 0 && r[i - 1] == ' '
    decreases |s|
  {
    if |s| == 0 then ""
    else
      var head, rest := Spaced(s[0]), SpaceBeforeCapitals(s[1..]);
      RemoveSpaceOfSpaced(s);
      WithoutConcat(head, rest, IsSpace);
      SpacedCapitals(head, rest);
      head + rest
  }

  lemma RemoveSpaceOfSpaced(s: string)
    requires |s| > 0
    ensures RemoveSpace(s) == RemoveSpace(Spaced(s[0])) + RemoveSpace(s[1..])
  {
    var c := s[0];
    if 'A' <= c <= 'Z' {
      assert Spaced(c)[1..] == [c];
      assert [c][1..] == [];
    } else {
      assert Spaced(c)[1..] == [];
    }
  }

  lemma SpacedCapitals(head: string, rest: string)
    requires |head| > 0 && (head == [head[0]] || (head[0] == ' ' && |head| == 2))
    requires !('A' <= head[0] <= 'Z')
    requires forall i :: 0 <= i < |rest| && 'A' <= rest[i] <= 'Z' ==> i > 0 && rest[i - 1] == ' '
    ensures var r := head + rest;
      forall i :: 0 <= i < |r| && 'A' <= r[i] <= 'Z' ==> i > 0 && r[i - 1] == ' '
  {
    var r := head + rest;
    forall i | 0 <= i < |r| && 'A' <= r[i] <= 'Z'
      ensures i > 0 && r[i - 1] == ' '
    {
      if i >= |head| {
        assert r[i] == rest[i - |head|];
        if i - |head| > 0 {
          assert r[i - 1] == rest[i - |head| - 1];
        }
      }
    }
  }

  lemma CanonicalOfSpaced(c: char)
    ensures Canonical(Spaced(c)) == Canonical([c])
  {
    if 'A' <= c <= 'Z' {
      assert [' ', c] == [' '] + [c];
      CanonicalConcat([' '], [c]);
      CanonicalOfSpaces([' ']);
    }
  }

  lemma SpacedHead(s: string)
    requires |s| > 0
    ensures Canonical(SpaceBeforeCapitals(s)) == Canonical(s[..1]) + Canonical(SpaceBeforeCapitals(s[1..]))
  {
    var head := s[..1];
    assert head == [s[0]];
    assert SpaceBeforeCapitals(s) == Spaced(s[0]) + SpaceBeforeCapitals(s[1..]);
    CanonicalConcat(Spaced(s[0]), SpaceBeforeCapitals(s[1..]));
    CanonicalOfSpaced(s[0]);
  }

  lemma CanonicalHead(s: string)
    requires |s| > 0
    ensures Canonical(s) == Canonical(s[..1]) + Canonical(s[1..])
  {
    assert s == s[..1] + s[1..];
    CanonicalConcat(s[..1], s[1..]);
  }

  /** Splitting at capitals only inserts whitespace, which the slug drops. */
  lemma {:induction false} CanonicalOfSpaceBeforeCapitals(s: string)
    ensures Canonical(SpaceBeforeCapitals(s)) == Canonical(s)
    decreases |s|
  {
    if |s| > 0 {
      CanonicalOfSpaceBeforeCapitals(s[1..]);
      SpacedHead(s);
      CanonicalHead(s);
    }
  }

  /** The campus segment as the search compares it. */
  function SedeSegment(sede: string): string {
    Trim(SpaceBeforeCapitals(sede))
  }

  /** The camel-case splitting and the trim are cancelled by the slug: the
      segment the search compares has the slug of the raw segment. */
  lemma SedeSegmentSlug(sede: string)
    ensures NormalizeText(SedeSegment(sede)) == NormalizeText(sede)
  {
    CanonicalOfTrim(SpaceBeforeCapitals(sede));
    CanonicalOfSpaceBeforeCapitals(sede);
  }

  /** The campus search as written. */
  function FindSede(tree: Tree, sede: string): (k: Option<string>)
    ensures k.None? <==> forall i :: 0 <= i < |tree| ==> NormalizeText(tree[i].key) != NormalizeText(SedeSegment(sede))
    ensures k.Some? ==> NormalizeText(k.value) == NormalizeText(SedeSegment(sede))
  {
    var target := NormalizeText(SedeSegment(sede));
    FindKey(tree, (key: string) => NormalizeText(key) == target)
  }

  /** The search as written is the plain slug search on the raw segment. */
  lemma FindSedePlain(tree: Tree, sede: string)
    ensures FindSede(tree, sede) == FindKey(tree, (key: string) => NormalizeText(key) == NormalizeText(sede))
  {
    SedeSegmentSlug(sede);
  }

  // ---------------------------------------------------------------------------
  // Career search
  // ---------------------------------------------------------------------------

  /** `(item) => normalizeText(item.title) === target`: throws on a nullish
      item or a title that is not a string. */
  function TitleIs(target: string): Value -> Outcome<bool> {
    (item: Value) =>
      if Nullish(item) then Fail(TypeError)
      else
        var t := OptGet(item, "title");
        if t.Str? then Ok(NormalizeText(t.s) == target) else Fail(TypeError)
  }

  function SedeInfo(tree: Tree, sede: string): Value {
    Pick(tree, FindSede(tree, sede))
  }

  /** `sedeInfo?.carrera.find(...)`: nothing without a campus record; with
      one, a `carrera` that is not an array throws. */
  function FindCarrera(sedeInfo: Value, carrera: string): (r: Outcome<Value>)
    ensures Nullish(sedeInfo) ==> r == Ok(Undefined)
    ensures !Nullish(sedeInfo) && !OptGet(sedeInfo, "carrera").Arr? ==> r.Fail?
    ensures r.Ok? && r.value != Undefined ==>
      && OptGet(sedeInfo, "carrera").Arr?
      && r.value in OptGet(sedeInfo, "carrera").items
      && TitleIs(NormalizeText(carrera))(r.value) == Ok(true)
    ensures r.Ok? ==> (Truthy(r.value) <==> r.value != Undefined)
  {
    if Nullish(sedeInfo) then Ok(Undefined)
    else
      var items := OptGet(sedeInfo, "carrera");
      match items
      case Arr(xs) =>
        (match FindThrowing(xs, TitleIs(NormalizeText(carrera)))
         case Fail(e) => Fail(e)
         case Ok(None) => Ok(Undefined)
         case Ok(Some(i)) => Ok(xs[i]))
      case _ => Fail(TypeError)
  }

  /** The career found is the first entry whose title slug is the segment's
      slug. */
  lemma FindCarreraFirst(sedeInfo: Value, carrera: string, j: nat)
    requires !Nullish(sedeInfo)
    requires var items := OptGet(sedeInfo, "carrera");
      && items.Arr? && j < |items.items|
      && TitleIs(NormalizeText(carrera))(items.items[j]) == Ok(true)
      && forall k :: 0 <= k < j ==> TitleIs(NormalizeText(carrera))(items.items[k]) == Ok(false)
    ensures FindCarrera(sedeInfo, carrera) == Ok(OptGet(sedeInfo, "carrera").items[j])
  {
    FindThrowingFirst(OptGet(sedeInfo, "carrera").items, TitleIs(NormalizeText(carrera)), j);
  }

  /** The career cards of the campus home page link with the title's
      whitespace removed; that segment finds the same career as the full
      title. */
  lemma LinkWithoutSpacesFindsSame(sedeInfo: Value, title: string)
    ensures FindCarrera(sedeInfo, RemoveSpace(title)) == FindCarrera(sedeInfo, title)
  {
    CanonicalOfRemoveSpace(title);
  }

  // ---------------------------------------------------------------------------
  // Video
  // ---------------------------------------------------------------------------

  /** `videoId`: nothing without a truthy `video`; a `video` that is not a
      string has no `match`; otherwise the second capture group of the
      YouTube pattern, given here as `capture` (None when the pattern does
      not match), is kept only when it is exactly 11 characters long. */
  function VideoId(video: Value, capture: Option<string>): (r: Outcome<Option<string>>)
    ensures r.Fail? <==> Truthy(video) && !video.Str?
    ensures r.Ok? && r.value.Some? ==> |r.value.value| == 11 && capture == Some(r.value.value) && Truthy(video)
    ensures Truthy(video) && video.Str? && capture.Some? && |capture.value| == 11 ==> r == Ok(capture)
  {
    if !Truthy(video) then Ok(None)
    else if !video.Str? then Fail(TypeError)
    else
      match capture
      case None => Ok(None)
      case Some(id) => if |id| == 11 then Ok(Some(id)) else Ok(None)
  }

  const ThumbnailPrefix: string := "https://img.youtube.com/vi/"
  const ThumbnailSuffix: string := "/hqdefault.jpg"

  /** `thumbnail`: present exactly when the id is, and it carries the id. */
  function Thumbnail(videoId: Option<string>): (r: Option<string>)
    ensures r.Some? <==> videoId.Some?
    ensures r.Some? ==> var id := videoId.value;
      && |r.value| == |ThumbnailPrefix| + |id| + |ThumbnailSuffix|
      && r.value[..|ThumbnailPrefix|] == ThumbnailPrefix
      && r.value[|ThumbnailPrefix|..|ThumbnailPrefix| + |id|] == id
      && r.value[|ThumbnailPrefix| + |id|..] == ThumbnailSuffix
  {
    match videoId
    case None => None
    case Some(id) =>
      var url := ThumbnailPrefix + id + ThumbnailSuffix;
      assert url[..|ThumbnailPrefix|] == ThumbnailPrefix;
      assert url[|ThumbnailPrefix|..|ThumbnailPrefix| + |id|] == id;
      assert url[|ThumbnailPrefix| + |id|..] == ThumbnailSuffix;
      Some(url)
  }

  // ---------------------------------------------------------------------------
  // Tabs
  // ---------------------------------------------------------------------------

  datatype TabKey = Mision | Vision | Campo | Valores | Malla

  function Key(t: TabKey): string {
    match t
    case Mision => "mision"
    case Vision => "vision"
    case Campo => "campo"
    case Valores => "valores"
    case Malla => "malla"
  }

  /** The tabs in display order. */
  const TabList: seq<TabKey> := [Mision, Vision, Campo, Valores, Malla]

  /** The position of a tab in display order. */
  function Index(t: TabKey): (i: nat)
    ensures i < |TabList| && TabList[i] == t
  {
    match t
    case Mision => 0
    case Vision => 1
    case Campo => 2
    case Valores => 3
    case Malla => 4
  }

  /** `useState("mision")`. */
  const InitialTab: string := "mision"

  /** `tabs.find((t) => t.key === activeTab)`. */
  function Shown(activeTab: string): (r: Option<TabKey>)
    ensures r.Some? ==> Key(r.value) == activeTab
    ensures r.None? <==> forall t: TabKey :: Key(t) != activeTab
  {
    match FindIndex(TabList, (t: TabKey) => Key(t) == activeTab)
    case None =>
      assert forall t: TabKey :: TabList[Index(t)] == t;
      None
    case Some(i) => Some(TabList[i])
  }

  /** A tab button sets the active tab to its key, and that key shows that
      tab. */
  lemma ShownRoundTrip(t: TabKey)
    ensures Shown(Key(t)) == Some(t)
  {
  }

  /** The page starts on the mission tab. */
  lemma InitialTabShown()
    ensures Shown(InitialTab) == Some(Mision)
  {
  }

  // ---------------------------------------------------------------------------
  // The page
  // ---------------------------------------------------------------------------

  datatype View =
    | SedeNoEncontrada
    | NotFound(mensaje: string)
    | Page(data: Value, videoId: Option<string>, thumbnail: Option<string>, tab: Option<TabKey>)

  /** What the component renders for the active tab. The career search and
      the video id are evaluated before either check; a missing campus takes
      precedence over a missing career. */
  const NoCarrera: string := "La sede no existe."

  function Render(tree: Tree, sede: string, carrera: string, capture: Option<string>, activeTab: string): (r: Outcome<View>)
    ensures !Truthy(SedeInfo(tree, sede)) && r.Ok? ==> r.value == SedeNoEncontrada
    ensures FindSede(tree, sede).None? ==> r == Ok(SedeNoEncontrada)
    ensures r.Ok? && Truthy(SedeInfo(tree, sede)) ==>
      (r.value == NotFound(NoCarrera) <==> FindCarrera(SedeInfo(tree, sede), carrera) == Ok(Undefined))
    ensures var found := FindCarrera(SedeInfo(tree, sede), carrera);
      r.Fail? <==> found.Fail? || VideoId(OptGet(found.value, "video"), capture).Fail?
    ensures r.Ok? && Truthy(SedeInfo(tree, sede)) ==> r.value != SedeNoEncontrada
    ensures var found := FindCarrera(SedeInfo(tree, sede), carrera);
      r.Ok? && Truthy(SedeInfo(tree, sede)) && Truthy(found.value) ==> r.value.Page?
    ensures r.Ok? && r.value.Page? ==>
      && FindCarrera(SedeInfo(tree, sede), carrera) == Ok(r.value.data)
      && VideoId(OptGet(r.value.data, "video"), capture) == Ok(r.value.videoId)
      && r.value.thumbnail == Thumbnail(r.value.videoId)
      && (r.value.thumbnail.Some? <==> r.value.videoId.Some?)
      && r.value.tab == Shown(activeTab)
  {
    var sedeInfo := SedeInfo(tree, sede);
    var data :- FindCarrera(sedeInfo, carrera);
    var videoId :- VideoId(OptGet(data, "video"), capture);
    if !Truthy(sedeInfo) then Ok(SedeNoEncontrada)
    else if !Truthy(data) then Ok(NotFound(NoCarrera))
    else Ok(Page(data, videoId, Thumbnail(videoId), Shown(activeTab)))
  }

  /** With a campus record, the page shows the first career whose title slug
      is the segment's slug, when that entry is truthy and its video is not a
      non-string. */
  lemma ShowsFirstCarrera(tree: Tree, sede: string, carrera: string, capture: Option<string>, activeTab: string, j: nat)
    requires Truthy(SedeInfo(tree, sede))
    requires var items := OptGet(SedeInfo(tree, sede), "carrera");
      && items.Arr? && j < |items.items|
      && TitleIs(NormalizeText(carrera))(items.items[j]) == Ok(true)
      && forall k :: 0 <= k < j ==> TitleIs(NormalizeText(carrera))(items.items[k]) == Ok(false)
    requires var item := OptGet(SedeInfo(tree, sede), "carrera").items[j];
      Truthy(item) && VideoId(OptGet(item, "video"), capture).Ok?
    ensures var item := OptGet(SedeInfo(tree, sede), "carrera").items[j];
      var id := VideoId(OptGet(item, "video"), capture).value;
      Render(tree, sede, carrera, capture, activeTab) == Ok(Page(item, id, Thumbnail(id), Shown(activeTab)))
  {
    FindCarreraFirst(SedeInfo(tree, sede), carrera, j);
  }
}
