/**
 What happens to the selected annotation: the `media_handler` table
 (src/media.c:59-63, 121-124), `media_link` (src/media.c:133-193),
 `media_sound` (src/media.c:195-198) and `media_movie`
 (src/media.c:200-204). Poppler's answers (the link mapping of the page,
 named-destination lookup, the movie file of an annotation) are passed in
 as data, and the effect is returned instead of performed.
 */
module Dispatch {

  import opened Options
  import opened Geometry
  import opened Search

  /** Poppler's annotation types, in the order of the `atypes` table. */
  datatype AnnotKind =
    | Unknown | FreeText | Text | Link | Line | Square | Circle | Polygon
    | PolyLine | Highlight | Underline | Squiggly | StrikeOut | Stamp | Caret
    | Ink | Popup | FileAttachment | Sound | Movie | Widget | Screen
    | PrinterMark | TrapNet | Watermark | ThreeD

  /** The kinds the `media_handler` table has an entry for. */
  predicate HasHandler(k: AnnotKind) {
    k == Link || k == Sound || k == Movie
  }

  /** A destination: by name (resolved through the document) or an explicit page number. */
  datatype Dest = NamedDest(name: string) | PageDest(pageNum: int)

  /** The action types `media_link` does not handle itself. */
  datatype OtherActionType = UnknownAction | NoAction | GotoRemote | OcgState | JavaScript | ResetForm

  /** A link action, with the data `media_link` reads from it. */
  datatype Action =
    | GotoDest(dest: Dest)
    | Named(name: string)
    | Launch
    | Uri(uri: string)
    | MovieAction(movieFile: string)
    | Rendition(mediaFile: string)
    | OtherAction(actionType: OtherActionType)

  /** One entry of the page's link mapping: an area and its action, if any. */
  datatype LinkMapping = LinkMapping(area: Rect, action: Option<Action>)

  /**
   One collected annotation: its rectangle in document and in screen
   coordinates, its kind, and the file of the movie it carries (read only
   for Movie annotations).
   */
  datatype MediaLink = MediaLink(pdfRect: Rect, rect: Rect, kind: AnnotKind, movieFile: string)

  /** The messages `action` and its helpers write to standard error, and the out-of-range index. */
  datatype Diagnostic =
    | NoHandlerForType(kind: AnnotKind)       // "No media handler for type ..."
    | ActionNotRecognized(actionType: OtherActionType) // "Action type ... not recognized"
    | NoTemplateFor(kind: AnnotKind)          // "No media handler for ..." in `spawn`
    | IndexOutOfRange(n: int)                 // an index outside the collected annotations

  /** What a handler asks for. */
  datatype Effect =
    | Jump(page: int)                               // set the current page (0-based)
    | SpawnRequest(kind: AnnotKind, payload: string, at: Rect) // call `spawn`
    | NoEffect
    | Report(d: Diagnostic)

  /** The kinds `spawn` is ever called with. */
  predicate SpawnKind(k: AnnotKind) {
    k == Link || k == Movie || k == Sound
  }

  /** Whether a link mapping belongs to an annotation: equal on all four coordinates. */
  predicate SameArea(lm: LinkMapping, pdfRect: Rect) {
    lm.area.x1 == pdfRect.x1 && lm.area.x2 == pdfRect.x2
    && lm.area.y1 == pdfRect.y1 && lm.area.y2 == pdfRect.y2
  }

  /** The action of the first link mapping with the annotation's document rectangle, if there is one. */
  function FindLinkAction(links: seq<LinkMapping>, pdfRect: Rect): (act: Option<Action>)
    ensures act.Some? ==> exists i :: 0 <= i < |links| && links[i].area == pdfRect && links[i].action == act
    ensures (forall i :: 0 <= i < |links| ==> links[i].area != pdfRect) ==> act.None?
  {
    match FirstIndex(links, (lm: LinkMapping) => SameArea(lm, pdfRect))
    case None => None
    case Some(i) => links[i].action
  }

  /** The first mapping with the right area decides, even when later ones match too. */
  lemma FirstLinkWins(links: seq<LinkMapping>, pdfRect: Rect, i: nat)
    requires i < |links| && links[i].area == pdfRect
    requires forall j :: 0 <= j < i ==> links[j].area != pdfRect
    ensures FindLinkAction(links, pdfRect) == links[i].action
  {
    FirstIndexUnique(links, (lm: LinkMapping) => SameArea(lm, pdfRect), i);
  }

  /** Page of a named destination, as `poppler_document_find_dest` resolves it (1-based). */
  function ResolveNamed(dests: map<string, int>, name: string): (e: Effect)
    ensures e.Jump? <==> name in dests
    ensures e.Jump? ==> e.page + 1 == dests[name]
    ensures !e.Jump? ==> e == NoEffect
  {
    if name in dests then Jump(dests[name] - 1) else NoEffect
  }

  /** The effect of a link action; `at` is the annotation's screen rectangle. */
  function ResolveAction(act: Action, dests: map<string, int>, at: Rect): (e: Effect)
    ensures e.Jump? <==> (act.GotoDest? && (act.dest.PageDest? || act.dest.name in dests))
                         || (act.Named? && act.name in dests)
    ensures e.Jump? && act.GotoDest? && act.dest.PageDest? ==> e.page + 1 == act.dest.pageNum
    ensures e.Jump? && act.GotoDest? && act.dest.NamedDest? ==> e.page + 1 == dests[act.dest.name]
    ensures e.Jump? && act.Named? ==> e.page + 1 == dests[act.name]
    ensures e.SpawnRequest? <==> act.Uri? || act.MovieAction? || act.Rendition?
    ensures e.SpawnRequest? ==> SpawnKind(e.kind) && e.at == at
    ensures e.Report? <==> act.OtherAction?
    ensures e.Report? ==> e.d == ActionNotRecognized(act.actionType)
  {
    match act
    case GotoDest(dest) =>
      (match dest
       case NamedDest(name) => ResolveNamed(dests, name)
       case PageDest(n) => Jump(n - 1))
    case Named(name) => ResolveNamed(dests, name)
    case Launch => NoEffect
    case Uri(uri) => SpawnRequest(Link, uri, at)
    case MovieAction(f) => SpawnRequest(Movie, f, at)
    case Rendition(f) => SpawnRequest(Sound, f, at)
    case OtherAction(t) => Report(ActionNotRecognized(t))
  }

  /** A named action and a goto to the same named destination do the same thing. */
  lemma NamedLikeNamedDest(name: string, dests: map<string, int>, at: Rect)
    ensures ResolveAction(Named(name), dests, at) == ResolveAction(GotoDest(NamedDest(name)), dests, at)
  {
  }

  /**
   Each spawning action spawns once, with the kind that selects its
   template and the payload the action names.
   */
  lemma SpawnKindOfAction(act: Action, dests: map<string, int>, at: Rect)
    ensures act.Uri? ==> ResolveAction(act, dests, at) == SpawnRequest(Link, act.uri, at)
    ensures act.MovieAction? ==> ResolveAction(act, dests, at) == SpawnRequest(Movie, act.movieFile, at)
    ensures act.Rendition? ==> ResolveAction(act, dests, at) == SpawnRequest(Sound, act.mediaFile, at)
  {
  }

  /** `media_link`: find the annotation's link action and resolve it. */
  function HandleLink(m: MediaLink, links: seq<LinkMapping>, dests: map<string, int>): (e: Effect)
    ensures FindLinkAction(links, m.pdfRect).None? ==> e == NoEffect
    ensures FindLinkAction(links, m.pdfRect).Some? ==>
              e == ResolveAction(FindLinkAction(links, m.pdfRect).value, dests, m.rect)
    ensures e.SpawnRequest? ==> SpawnKind(e.kind) && e.at == m.rect
    ensures !e.Report? || e.d.ActionNotRecognized?
  {
    match FindLinkAction(links, m.pdfRect)
    case None => NoEffect
    case Some(act) => ResolveAction(act, dests, m.rect)
  }

  /**
   The `media_handler` dispatch: links go to `media_link`, sounds to the
   empty `media_sound`, movies to `media_movie`, which spawns the
   annotation's movie; every other kind has no handler.
   */
  function HandleAnnotation(m: MediaLink, links: seq<LinkMapping>, dests: map<string, int>): (e: Effect)
    ensures e == Report(NoHandlerForType(m.kind)) <==> !HasHandler(m.kind)
    ensures m.kind == Sound ==> e == NoEffect
    ensures m.kind == Movie ==> e == SpawnRequest(Movie, m.movieFile, m.rect)
    ensures e.Jump? ==> m.kind == Link
    ensures e.SpawnRequest? ==> SpawnKind(e.kind) && e.at == m.rect
  {
    match m.kind
    case Link => HandleLink(m, links, dests)
    case Sound => NoEffect
    case Movie => SpawnRequest(Movie, m.movieFile, m.rect)
    case _ => Report(NoHandlerForType(m.kind))
  }

  /** For a link, the outcome depends only on the first mapping with the annotation's area. */
  lemma LinkDispatch(m: MediaLink, links: seq<LinkMapping>, dests: map<string, int>, i: nat)
    requires m.kind == Link
    requires i < |links| && links[i].area == m.pdfRect
    requires forall j :: 0 <= j < i ==> links[j].area != m.pdfRect
    ensures links[i].action.None? ==> HandleAnnotation(m, links, dests) == NoEffect
    ensures links[i].action.Some? ==>
              HandleAnnotation(m, links, dests) == ResolveAction(links[i].action.value, dests, m.rect)
  {
    FirstLinkWins(links, m.pdfRect, i);
  }

}
