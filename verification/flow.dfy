/**
 One invocation of `action` (src/media.c:78-131) put together: collect the
 page's annotations in screen coordinates, select one, dispatch it, and
 turn a spawn request into the command line `spawn` would run.
 */
module Flow {

  import opened Options
  import opened Numeric
  import opened Geometry
  import opened Template
  import opened Selection
  import opened Dispatch
  import opened Search

  /** An annotation of the current page as Poppler reports it. */
  datatype Annot = Annot(area: Rect, kind: AnnotKind, movieFile: string)

  /**
   The current page of the open document: its size, its annotation and
   link mappings in Poppler's order, and the named destinations of the
   document with their 1-based page numbers.
   */
  datatype Page = Page(width: real, height: real, annots: seq<Annot>,
                       links: seq<LinkMapping>, dests: map<string, int>)

  /** The part of the presentation state `action` reads or sets. */
  datatype Show = Show(w: real, h: real, cur: int)

  /** The configuration: aspect lock and one command template per annotation kind. */
  datatype Config = Config(lockAspect: bool, templates: map<AnnotKind, string>)

  /** A page Poppler can report has a positive size. */
  predicate ValidPage(p: Page) {
    0.0 < p.width && 0.0 < p.height
  }

  function PageScaling(p: Page, show: Show, config: Config): Scaling
    requires ValidPage(p)
  {
    ComputeScaling(show.w, show.h, p.width, p.height, config.lockAspect)
  }

  function Collected(a: Annot, s: Scaling, pageH: real): MediaLink {
    MediaLink(a.area, ToScreen(s, pageH, a.area), a.kind, a.movieFile)
  }

  /** The `ml` array: one entry per annotation, in order, with its screen rectangle. */
  function Collect(p: Page, s: Scaling): (ml: seq<MediaLink>)
    ensures |ml| == |p.annots|
    ensures forall i :: 0 <= i < |ml| ==>
              ml[i].pdfRect == p.annots[i].area && ml[i].kind == p.annots[i].kind
              && ml[i].movieFile == p.annots[i].movieFile
              && ml[i].rect == ToScreen(s, p.height, p.annots[i].area)
  {
    seq(|p.annots|, i requires 0 <= i < |p.annots| => Collected(p.annots[i], s, p.height))
  }

  /** The collecting loop, one annotation per iteration. */
  method CollectLoop(p: Page, s: Scaling) returns (ml: seq<MediaLink>)
    ensures |ml| == |p.annots|
    ensures forall i :: 0 <= i < |ml| ==>
              ml[i].pdfRect == p.annots[i].area && ml[i].kind == p.annots[i].kind
              && ml[i].movieFile == p.annots[i].movieFile
              && ml[i].rect == ToScreen(s, p.height, p.annots[i].area)
    ensures ml == Collect(p, s)
  {
    ml := [];
    var n := 0;
    while n < |p.annots|
      invariant 0 <= n <= |p.annots|
      invariant ml == Collect(p, s)[..n]
    {
      var a := p.annots[n];
      var y1 := p.height - a.area.y2;
      var y2 := p.height - a.area.y1;
      var r := Rect(s.scx * a.area.x1 + s.dx, s.scy * y1 + s.dy,
                    s.scx * a.area.x2 + s.dx, s.scy * y2 + s.dy);
      assert Flip(p.height, a.area) == Rect(a.area.x1, y1, a.area.x2, y2);
      assert r == Place(s, Rect(a.area.x1, y1, a.area.x2, y2));
      ml := ml + [MediaLink(a.area, r, a.kind, a.movieFile)];
      assert Collect(p, s)[..n + 1] == Collect(p, s)[..n] + [Collect(p, s)[n]];
      n := n + 1;
    }
    assert Collect(p, s)[..n] == Collect(p, s);
  }

  /** The document rectangle of every collected annotation can be recovered from its screen rectangle. */
  lemma CollectKeepsDocumentRect(p: Page, s: Scaling, i: nat)
    requires s.scx != 0.0 && s.scy != 0.0
    requires i < |p.annots|
    ensures FromScreen(s, p.height, Collect(p, s)[i].rect) == Collect(p, s)[i].pdfRect
  {
    ScreenRoundTrip(s, p.height, p.annots[i].area);
  }

  function ScreenRects(ml: seq<MediaLink>): (rs: seq<Rect>)
    ensures |rs| == |ml| && forall i :: 0 <= i < |ml| ==> rs[i] == ml[i].rect
  {
    seq(|ml|, i requires 0 <= i < |ml| => ml[i].rect)
  }

  /** What one invocation leaves behind. */
  datatype Reaction =
    | GoTo(page: int)       // the new current page
    | Shell(command: string) // the command line handed to the shell
    | Complain(d: Diagnostic)
    | Nothing

  /** Carry out a handler's effect; a spawn runs the configured template, or complains without one. */
  function Perform(e: Effect, config: Config): (r: Reaction)
    ensures r.Shell? <==> e.SpawnRequest? && e.kind in config.templates
    ensures r.Shell? ==> r.command == Expand(config.templates[e.kind], e.payload, e.at)
    ensures e.SpawnRequest? && e.kind !in config.templates ==> r == Complain(NoTemplateFor(e.kind))
    ensures r.GoTo? <==> e.Jump?
    ensures e.Jump? ==> r == GoTo(e.page)
    ensures e.Report? ==> r == Complain(e.d)
    ensures r == Nothing <==> e == NoEffect
  {
    match e
    case Jump(page) => GoTo(page)
    case SpawnRequest(kind, payload, at) =>
      (match Spawn(config.templates, kind, payload, at)
       case Run(c) => Shell(c)
       case NoTemplate => Complain(NoTemplateFor(kind)))
    case NoEffect => Nothing
    case Report(d) => Complain(d)
  }

  /** The result of `action`: no document, still waiting for an event, or finished. */
  datatype Outcome = Aborted | Pending | Finished(reaction: Reaction, queue: seq<XEvent>)

  function React(choice: Choice, ml: seq<MediaLink>, p: Page, config: Config): Reaction
    requires choice.Chosen? ==> choice.index < |ml|
  {
    match choice
    case Chosen(i) => Perform(HandleAnnotation(ml[i], p.links, p.dests), config)
    case NoChoice => Nothing
    case OutOfRange(n) => Complain(IndexOutOfRange(n))
  }

  /** The selection step of `action` on the collected annotations of a page. */
  function ChoiceOf(cmd: string, p: Page, show: Show, config: Config, q: seq<XEvent>): SelectResult
    requires ValidPage(p)
  {
    Select(cmd, ScreenRects(Collect(p, PageScaling(p, show, config))), q)
  }

  /**
   `action(cmd)`: with the page Poppler opened (none when the document
   cannot be opened), the display state, the configuration and the X event
   queue.
   */
  function RunAction(cmd: string, page: Option<Page>, show: Show, config: Config, q: seq<XEvent>): (o: Outcome)
    requires page.Some? ==> ValidPage(page.value)
    ensures o.Aborted? <==> page.None?
    ensures o.Pending? ==> ' ' !in cmd
    ensures page.Some? && ' ' in cmd ==> o.Finished? && o.queue == q
    ensures page.Some? && ParseSelection(cmd).ByKind? ==> o == Finished(Nothing, q)
  {
    match page
    case None => Aborted
    case Some(p) =>
      var ml := Collect(p, PageScaling(p, show, config));
      match ChoiceOf(cmd, p, show, config, q)
      case Blocked => Pending
      case Selected(choice, q') => Finished(React(choice, ml, p, config), q')
  }

  /** `show->cur` after the invocation: the assignments of `media_link` are the only writes to it. */
  function NextPage(show: Show, o: Outcome): int {
    if o.Finished? && o.reaction.GoTo? then o.reaction.page else show.cur
  }

  /**
   Where a chosen link takes the presentation: a direct destination to its
   page minus one, a named destination or named action to the resolved page
   minus one when the name resolves and nowhere otherwise; every other
   action leaves the current page.
   */
  lemma LinkJumpTarget(cmd: string, p: Page, show: Show, config: Config, q: seq<XEvent>,
                       a: nat, i: nat, act: Action)
    requires ValidPage(p)
    requires ChoiceOf(cmd, p, show, config, q).Selected?
    requires ChoiceOf(cmd, p, show, config, q).choice == Chosen(a)
    requires a < |p.annots| && p.annots[a].kind == Link
    requires i < |p.links| && p.links[i].area == p.annots[a].area
    requires forall j :: 0 <= j < i ==> p.links[j].area != p.annots[a].area
    requires p.links[i].action == Some(act)
    ensures var cur := NextPage(show, RunAction(cmd, Some(p), show, config, q));
      && (act.GotoDest? && act.dest.PageDest? ==> cur == act.dest.pageNum - 1)
      && (act.GotoDest? && act.dest.NamedDest? ==>
            cur == if act.dest.name in p.dests then p.dests[act.dest.name] - 1 else show.cur)
      && (act.Named? ==> cur == if act.name in p.dests then p.dests[act.name] - 1 else show.cur)
      && (!act.GotoDest? && !act.Named? ==> cur == show.cur)
  {
    var ml := Collect(p, PageScaling(p, show, config));
    var o := RunAction(cmd, Some(p), show, config, q);
    assert o == Finished(React(Chosen(a), ml, p, config), ChoiceOf(cmd, p, show, config, q).queue);
    LinkDispatch(ml[a], p.links, p.dests, i);
    var e := ResolveAction(act, p.dests, ml[a].rect);
    assert HandleAnnotation(ml[a], p.links, p.dests) == e;
    assert o.reaction == Perform(e, config);
  }

  /** Only a chosen Link annotation can move the presentation to another page. */
  lemma OnlyLinksMovePages(cmd: string, p: Page, show: Show, config: Config, q: seq<XEvent>)
    requires ValidPage(p)
    ensures var c := ChoiceOf(cmd, p, show, config, q);
      NextPage(show, RunAction(cmd, Some(p), show, config, q)) != show.cur ==>
        c.Selected? && c.choice.Chosen? && c.choice.index < |p.annots| && p.annots[c.choice.index].kind == Link
  {
    var ml := Collect(p, PageScaling(p, show, config));
    var c := ChoiceOf(cmd, p, show, config, q);
    var o := RunAction(cmd, Some(p), show, config, q);
    if c.Blocked? {
      assert o == Pending;
    } else {
      assert o == Finished(React(c.choice, ml, p, config), c.queue);
      if c.choice.Chosen? {
        var e := HandleAnnotation(ml[c.choice.index], p.links, p.dests);
        assert o.reaction == Perform(e, config);
      }
    }
  }

  /**
   Interactive selection with a button press first among the awaited
   events: the press is consumed and the first annotation whose screen
   rectangle contains it is dispatched; a press outside every annotation
   does nothing.
   */
  lemma RunActionByClick(cmd: string, p: Page, show: Show, config: Config, q: seq<XEvent>, k: nat)
    requires ValidPage(p)
    requires ' ' !in cmd
    requires k < |q| && q[k].ButtonPress?
    requires forall j :: 0 <= j < k ==> !Awaited(q[j])
    ensures var ml := Collect(p, PageScaling(p, show, config));
      var hit := FirstHit(ScreenRects(ml), q[k].x as real, q[k].y as real);
      RunAction(cmd, Some(p), show, config, q)
        == Finished(React(if hit.Some? then Chosen(hit.value) else NoChoice, ml, p, config), Without(q, k))
  {
    var ml := Collect(p, PageScaling(p, show, config));
    ButtonPressPicks(q, ScreenRects(ml), k);
  }

  /** A verb, one blank and the `%d` text of a nonzero number select by that index. */
  lemma IndexCommand(verb: string, n: int)
    requires ' ' !in verb
    requires n != 0
    ensures ParseSelection(verb + " " + DecimalText(n)) == ByIndex(n)
  {
    ParseIndexCommand(verb, " ", n, "");
    assert verb + " " + DecimalText(n) + "" == verb + " " + DecimalText(n);
  }

  /** Selection by index neither waits for nor consumes an event. */
  lemma RunActionByIndex(cmd: string, n: int, p: Page, show: Show, config: Config, q: seq<XEvent>)
    requires ValidPage(p)
    requires ParseSelection(cmd) == ByIndex(n)
    ensures RunAction(cmd, Some(p), show, config, q)
         == Finished(React(ChooseByIndex(n, |p.annots|), Collect(p, PageScaling(p, show, config)), p, config), q)
  {
  }

  /**
   A command that selects annotation `a + 1` (`IndexCommand`: `verb n`)
   of a page where annotation `a` is a link whose first matching mapping
   opens a URI runs the link template once, with the URI and the
   annotation's screen geometry, and leaves the event queue alone.
   */
  lemma IndexedUriLinkRunsTemplate(cmd: string, a: nat, p: Page, show: Show, config: Config,
                                   q: seq<XEvent>, i: nat, uri: string)
    requires ValidPage(p)
    requires ParseSelection(cmd) == ByIndex(a + 1)
    requires a < |p.annots| && p.annots[a].kind == Link
    requires i < |p.links| && p.links[i].area == p.annots[a].area
    requires forall j :: 0 <= j < i ==> p.links[j].area != p.annots[a].area
    requires p.links[i].action == Some(Uri(uri))
    requires Link in config.templates
    ensures RunAction(cmd, Some(p), show, config, q)
         == Finished(Shell(Expand(config.templates[Link], uri,
                                ToScreen(PageScaling(p, show, config), p.height, p.annots[a].area))), q)
  {
    var ml := Collect(p, PageScaling(p, show, config));
    assert ChooseByIndex(a + 1, |p.annots|) == Chosen(a);
    RunActionOfChoice(cmd, p, show, config, q, Chosen(a), q);
    ChosenUriLink(ml, a, p, config, i, uri);
  }

  /** The choice `verb n` makes: the index path, with the queue untouched. */
  lemma IndexedChoice(verb: string, n: int, p: Page, show: Show, config: Config, q: seq<XEvent>)
    requires ValidPage(p)
    requires ' ' !in verb
    requires n != 0
    ensures ChoiceOf(verb + " " + DecimalText(n), p, show, config, q) == Selected(ChooseByIndex(n, |p.annots|), q)
  {
    IndexCommand(verb, n);
  }

  /** Once the selection step is over, `action` dispatches its choice. */
  lemma RunActionOfChoice(cmd: string, p: Page, show: Show, config: Config, q: seq<XEvent>, c: Choice, q': seq<XEvent>)
    requires ValidPage(p)
    requires ChoiceOf(cmd, p, show, config, q) == Selected(c, q')
    requires c.Chosen? ==> c.index < |p.annots|
    ensures RunAction(cmd, Some(p), show, config, q)
         == Finished(React(c, Collect(p, PageScaling(p, show, config)), p, config), q')
  {
  }

  /** A chosen link annotation whose first matching mapping opens a URI runs the link template. */
  lemma ChosenUriLink(ml: seq<MediaLink>, a: nat, p: Page, config: Config, i: nat, uri: string)
    requires a < |ml| && ml[a].kind == Link
    requires i < |p.links| && p.links[i].area == ml[a].pdfRect
    requires forall j :: 0 <= j < i ==> p.links[j].area != ml[a].pdfRect
    requires p.links[i].action == Some(Uri(uri))
    requires Link in config.templates
    ensures React(Chosen(a), ml, p, config) == Shell(Expand(config.templates[Link], uri, ml[a].rect))
  {
    LinkDispatch(ml[a], p.links, p.dests, i);
  }

  /** An index past the collected annotations is reported, and the event queue is untouched. */
  lemma IndexOutOfRangeReported(verb: string, n: int, p: Page, show: Show, config: Config, q: seq<XEvent>)
    requires ValidPage(p)
    requires ' ' !in verb
    requires n != 0 && !(1 <= n <= |p.annots|)
    ensures RunAction(verb + " " + DecimalText(n), Some(p), show, config, q)
         == Finished(Complain(IndexOutOfRange(n)), q)
  {
    IndexedChoice(verb, n, p, show, config, q);
    RunActionOfChoice(verb + " " + DecimalText(n), p, show, config, q, OutOfRange(n), q);
  }

  /** A key press during interactive selection does nothing and stays queued, in front. */
  lemma KeyPressDoesNothing(cmd: string, p: Page, show: Show, config: Config, q: seq<XEvent>, k: nat)
    requires ValidPage(p)
    requires ' ' !in cmd
    requires k < |q| && q[k] == KeyPress
    requires forall j :: 0 <= j < k ==> !Awaited(q[j])
    ensures var o := RunAction(cmd, Some(p), show, config, q);
      && o.Finished? && o.reaction == Nothing
      && multiset(o.queue) == multiset(q) && o.queue[0] == KeyPress
  {
    var ml := Collect(p, PageScaling(p, show, config));
    KeyPressPutBack(q, ScreenRects(ml), k);
  }

  /**
   A click selects the first annotation, in page order, whose document
   rectangle strictly contains the document point under the cursor:
   with positive scales the screen hit test is a document hit test.
   */
  lemma ClickSelectsAnnotationUnderCursor(q: seq<XEvent>, p: Page, s: Scaling, k: nat, x: real, y: real, a: nat)
    requires 0.0 < s.scx && 0.0 < s.scy
    requires k < |q| && q[k].ButtonPress?
    requires forall j :: 0 <= j < k ==> !Awaited(q[j])
    requires PointToScreen(s, p.height, x, y) == (q[k].x as real, q[k].y as real)
    requires a < |p.annots| && Contains(p.annots[a].area, x, y)
    requires forall j :: 0 <= j < a ==> !Contains(p.annots[j].area, x, y)
    ensures MouseSelect(q, ScreenRects(Collect(p, s))).pick == Some(a)
  {
    ButtonPressPicks(q, ScreenRects(Collect(p, s)), k);
    var rs := ScreenRects(Collect(p, s));
    var px, py := q[k].x as real, q[k].y as real;
    forall j | 0 <= j <= a
      ensures Contains(rs[j], px, py) <==> Contains(p.annots[j].area, x, y)
    {
      ContainsOnScreen(s, p.height, p.annots[j].area, x, y);
    }
    FirstIndexUnique(rs, (r: Rect) => Contains(r, px, py), a);
  }

}
